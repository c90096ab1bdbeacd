/** RPC request and response framing, and the loop that waits for a response (rpc.py), on values. */
module RpcSession {
  import opened Bytes
  import opened RpcCodec
  import opened RpcRoundTrip

  const SYNC_WORD: nat := 0x11000100
  const ASYNC_TID: nat := 0x11000101
  const ACK_CODES: nat := 2000

  /** `UtaMsNetIsAttachAllowedIndCb` */
  const ATTACH_ALLOWED_IND: nat := 0x6c

  /** The transaction word: `0x11000100 | tid`. */
  function TidWord(isAsync: bool): nat {
    if isAsync then ASYNC_TID else SYNC_WORD
  }

  function TotalLength(body: seq<u8>, isAsync: bool): nat {
    |body| + 16 + if isAsync then 6 else 0
  }

  /** The bytes `execute` writes; `StructError` when a length or the id does not fit 32 bits. */
  function Request(cmd: nat, body: seq<u8>, isAsync: bool): Result<seq<u8>> {
    var total := TotalLength(body, isAsync);
    if total >= 0x1_0000_0000 || cmd >= 0x1_0000_0000 then Raise(StructError) else
    Ok(Le32(total) + AsnInt4(total) + AsnInt4(cmd) + Be32(TidWord(isAsync))
        + (if isAsync then AsnInt4(ASYNC_TID) else []) + body)
  }

  datatype Kind = Response | AsyncAck | Unsolicited

  /** What `handle_message` returns; `lengthsMatch` is false when it prints a framing warning. */
  datatype Message = Message(tid: nat, kind: Kind, code: nat, body: seq<u8>, content: seq<Field>, lengthsMatch: bool)

  predicate IntAt(m: seq<u8>, at: nat) {
    at + 2 <= |m| && m[at] == INT_TAG && m[at + 1] == 4
  }

  function HandleMessage(m: seq<u8>): Result<Message> {
    if !IntAt(m, 4) || !IntAt(m, 10) then Raise(AssertionError)
    else if |m| < 20 then Raise(StructError)
    else Classify(FromBe(m[12..16]), FromBe(m[16..20]), m[20..], FromLe(m[..4]) == FromBe(m[6..10]))
  }

  /** The end of `handle_message`, which tells the kinds of message apart by their transaction word. */
  function Classify(code: nat, txid: nat, body: seq<u8>, same: bool): Result<Message> {
    var content := UnpackUnknown(body);
    if content.Raise? then Raise(content.error)
    else if txid == SYNC_WORD then Ok(Message(txid, Response, code, body, content.value, same))
    else if txid / 256 * 256 == SYNC_WORD then
      if code >= ACK_CODES then Ok(Message(txid, AsyncAck, code, body, content.value, same))
      else if content.value == [] then Raise(IndexError)
      else if content.value[0] != Int(txid) then Raise(AssertionError)
      else Ok(Message(txid, Response, code, if |body| >= 6 then body[6..] else [], content.value[1..], same))
    else Ok(Message(txid, Unsolicited, code, body, content.value, same))
  }

  // ---- What is written is read as a response ----

  lemma HeaderFields(total: nat, cmd: nat, word: nat, rest: seq<u8>)
    requires total < 0x1_0000_0000 && cmd < 0x1_0000_0000 && word < 0x1_0000_0000
    ensures var m := Le32(total) + AsnInt4(total) + AsnInt4(cmd) + Be32(word) + rest;
            && |m| == 20 + |rest| && IntAt(m, 4) && IntAt(m, 10)
            && m[..4] == Le32(total) && m[6..10] == Be32(total) && m[12..16] == Be32(cmd)
            && m[16..20] == Be32(word) && m[20..] == rest
  {
  }

  lemma FromLeCons(b: u8, s: seq<u8>)
    ensures var low: int := b; FromLe([b] + s) == low + 256 * FromLe(s)
  {
    assert ([b] + s)[1..] == s;
  }

  lemma FromLeFour(a: u8, b: u8, c: u8, d: u8)
    ensures var w: int, x: int, y: int, z: int := a, b, c, d;
            FromLe([a, b, c, d]) == ((z * 256 + y) * 256 + x) * 256 + w
  {
    FromLeCons(d, []);
    assert [d] + [] == [d];
    FromLeCons(c, [d]);
    assert [c] + [d] == [c, d];
    FromLeCons(b, [c, d]);
    assert [b] + [c, d] == [b, c, d];
    FromLeCons(a, [b, c, d]);
    assert [a] + [b, c, d] == [a, b, c, d];
  }

  lemma Le32Value(n: nat)
    requires n < 0x1_0000_0000
    ensures FromLe(Le32(n)) == n
  {
    assert n / 16777216 % 256 == n / 16777216;
    FromLeFour(n % 256, n / 256 % 256, n / 65536 % 256, n / 16777216);
    FourDigits(n);
  }

  lemma HeaderReads(total: nat, cmd: nat, word: nat, rest: seq<u8>)
    requires total < 0x1_0000_0000 && cmd < 0x1_0000_0000 && word < 0x1_0000_0000
    ensures HandleMessage(Le32(total) + AsnInt4(total) + AsnInt4(cmd) + Be32(word) + rest)
            == Classify(cmd, word, rest, true)
  {
    HeaderFields(total, cmd, word, rest);
    Le32Value(total);
    Be32Value(total);
    Be32Value(cmd);
    Be32Value(word);
  }

  /** The async transaction id in front of a body is one more field. */
  lemma TidField(body: seq<u8>)
    ensures UnpackUnknown(AsnInt4(ASYNC_TID) + body) == Prepend(Int(ASYNC_TID), UnpackUnknown(body))
  {
    var data := AsnInt4(ASYNC_TID) + body;
    AsnInt4Read(ASYNC_TID, body);
    assert data[0] == INT_TAG;
    UnknownOnce(data, Int(ASYNC_TID), body);
  }

  /**
   * For every decodable body, the request `execute` writes meets its own length assertion,
   * and `handle_message` reads it back with matching lengths, the same id and transaction
   * word. It is a response carrying the original body, unless it is asynchronous with an
   * id of 2000 or more, which reads as an acknowledgement that still holds the id field.
   */
  lemma RequestReadsBack(cmd: nat, body: seq<u8>, isAsync: bool)
    requires TotalLength(body, isAsync) < 0x1_0000_0000 && cmd < 0x1_0000_0000 && UnpackUnknown(body).Ok?
    ensures Request(cmd, body, isAsync).Ok?
    ensures var bytes, content := Request(cmd, body, isAsync).value, UnpackUnknown(body).value;
            && |bytes| == TotalLength(body, isAsync) + 4
            && HandleMessage(bytes) == Ok(
                 if isAsync && cmd >= ACK_CODES then
                   Message(ASYNC_TID, AsyncAck, cmd, AsnInt4(ASYNC_TID) + body, [Int(ASYNC_TID)] + content, true)
                 else Message(TidWord(isAsync), Response, cmd, body, content, true))
  {
    var total, word := TotalLength(body, isAsync), TidWord(isAsync);
    var rest := (if isAsync then AsnInt4(ASYNC_TID) else []) + body;
    var bytes := Request(cmd, body, isAsync).value;
    assert bytes == Le32(total) + AsnInt4(total) + AsnInt4(cmd) + Be32(word) + rest;
    HeaderReads(total, cmd, word, rest);
    if isAsync {
      AsyncClassified(cmd, body);
    } else {
      assert rest == body;
      SyncClassified(cmd, body);
    }
  }

  lemma SyncClassified(cmd: nat, body: seq<u8>)
    requires UnpackUnknown(body).Ok?
    ensures Classify(cmd, SYNC_WORD, body, true)
            == Ok(Message(SYNC_WORD, Response, cmd, body, UnpackUnknown(body).value, true))
  {
  }

  lemma AsyncClassified(cmd: nat, body: seq<u8>)
    requires UnpackUnknown(body).Ok?
    ensures var content := UnpackUnknown(body).value;
            Classify(cmd, ASYNC_TID, AsnInt4(ASYNC_TID) + body, true)
            == Ok(if cmd >= ACK_CODES then
                    Message(ASYNC_TID, AsyncAck, cmd, AsnInt4(ASYNC_TID) + body, [Int(ASYNC_TID)] + content, true)
                  else Message(ASYNC_TID, Response, cmd, body, content, true))
  {
    TidField(body);
    var data, fields := AsnInt4(ASYNC_TID) + body, [Int(ASYNC_TID)] + UnpackUnknown(body).value;
    assert data[6..] == body && fields[1..] == UnpackUnknown(body).value;
    AsyncKind(cmd, data, fields);
  }

  lemma AsyncKind(cmd: nat, data: seq<u8>, fields: seq<Field>)
    requires |data| >= 6 && UnpackUnknown(data) == Ok(fields) && fields != [] && fields[0] == Int(ASYNC_TID)
    ensures Classify(cmd, ASYNC_TID, data, true)
            == Ok(if cmd >= ACK_CODES then Message(ASYNC_TID, AsyncAck, cmd, data, fields, true)
                  else Message(ASYNC_TID, Response, cmd, data[6..], fields[1..], true))
  {
    assert ASYNC_TID != SYNC_WORD && ASYNC_TID / 256 * 256 == SYNC_WORD;
  }

  // ---- What a message is read as, told from its bytes ----

  /** Bytes 16 to 18 of a message that belongs to a request. */
  predicate Transaction(m: seq<u8>)
    requires |m| >= 20
  {
    m[16] == 0x11 && m[17] == 0x00 && m[18] == 0x01
  }

  function KindOf(m: seq<u8>): Kind
    requires |m| >= 20
  {
    if !Transaction(m) then Unsolicited
    else if m[19] != 0 && FromBe(m[12..16]) >= 2000 then AsyncAck
    else Response
  }

  /** A response whose first field repeats the transaction word. */
  predicate AsyncResponse(m: seq<u8>)
    requires |m| >= 20
  {
    KindOf(m) == Response && m[19] != 0
  }

  predicate Readable(m: seq<u8>) {
    && |m| >= 20 && m[4] == 0x02 && m[5] == 0x04 && m[10] == 0x02 && m[11] == 0x04 && UnpackUnknown(m[20..]).Ok?
    && (AsyncResponse(m) ==>
          var fields := UnpackUnknown(m[20..]).value; fields != [] && fields[0] == Int(FromBe(m[16..20])))
  }

  function MessageOf(m: seq<u8>): Message
    requires Readable(m)
  {
    var fields := UnpackUnknown(m[20..]).value;
    Message(FromBe(m[16..20]), KindOf(m), FromBe(m[12..16]),
            if !AsyncResponse(m) then m[20..] else if |m| >= 26 then m[26..] else [],
            if !AsyncResponse(m) then fields else fields[1..],
            FromLe(m[..4]) == FromBe(m[6..10]))
  }

  /** The transaction word by its bytes. */
  lemma WordBytes(s: seq<u8>)
    requires |s| == 4
    ensures FromBe(s) == SYNC_WORD <==> s == [0x11, 0x00, 0x01, 0x00]
    ensures FromBe(s) / 256 * 256 == SYNC_WORD <==> s[..3] == [0x11, 0x00, 0x01]
  {
    assert s == [s[0], s[1], s[2], s[3]];
    FromBeFour(s[0], s[1], s[2], s[3]);
    assert s[..3] == [s[0], s[1], s[2]];
    var a: int, b: int, c: int, d: int := s[0], s[1], s[2], s[3];
    assert FromBe(s) / 256 == (a * 256 + b) * 256 + c;
  }

  /**
   * `handle_message` reads exactly these messages, and tells their kind by bytes 16 to 19 and the code. Only a
   * response with a fourth transaction byte loses a field, the one that repeats its word.
   */
  lemma MessageRead(m: seq<u8>)
    ensures HandleMessage(m).Ok? <==> Readable(m)
    ensures Readable(m) ==> HandleMessage(m) == Ok(MessageOf(m))
  {
    if IntAt(m, 4) && IntAt(m, 10) && |m| >= 20 {
      var word := m[16..20];
      WordBytes(word);
      assert word[..3] == [m[16], m[17], m[18]] && word == word[..3] + [m[19]];
      Classified(m, FromBe(m[12..16]), FromBe(word), m[20..]);
    }
  }

  lemma Classified(m: seq<u8>, code: nat, word: nat, body: seq<u8>)
    requires |m| >= 20 && IntAt(m, 4) && IntAt(m, 10)
    requires code == FromBe(m[12..16]) && word == FromBe(m[16..20]) && body == m[20..]
    requires word == SYNC_WORD <==> Transaction(m) && m[19] == 0
    requires word / 256 * 256 == SYNC_WORD <==> Transaction(m)
    ensures var same := FromLe(m[..4]) == FromBe(m[6..10]);
            && (Classify(code, word, body, same).Ok? <==> Readable(m))
            && (Readable(m) ==> Classify(code, word, body, same) == Ok(MessageOf(m)))
  {
    if |m| >= 26 { assert body[6..] == m[26..]; }
  }

  // ---- Waiting for the response ----

  /** `attach_allowed`: `None` stands for the initial `False`. */
  type Attach = Option<Field>

  /** `handle_unsolicited` */
  function Indicate(attach: Attach, m: Message): Result<Attach> {
    if m.code != ATTACH_ALLOWED_IND then Ok(attach)
    else if |m.content| < 3 then Raise(IndexError)
    else Ok(Some(m.content[2]))
  }

  /** `pump` on one message: the message and the new `attach_allowed`. Printing decodes the body once more. */
  function Pump(attach: Attach, bytes: seq<u8>): Result<(Message, Attach)> {
    var r := HandleMessage(bytes);
    if r.Raise? then Raise(r.error) else
    var m := r.value;
    var noted := if m.kind == Unsolicited then Indicate(attach, m) else Ok(attach);
    if noted.Raise? then Raise(noted.error) else
    var printed := UnpackUnknown(m.body);
    if printed.Raise? then Raise(printed.error) else Ok((m, noted.value))
  }

  /** How the loop of `execute` ends on a stream of messages; `Waiting` when the stream holds no response. */
  datatype Ending =
    | Got(response: Message, attach: Attach, consumed: nat)
    | Waiting(attach: Attach)
    | Died(error: Exception)

  function Await(attach: Attach, messages: seq<seq<u8>>): Ending
    decreases |messages|
  {
    if messages == [] then Waiting(attach) else
    var r := Pump(attach, messages[0]);
    if r.Raise? then Died(r.error)
    else if r.value.0.kind == Response then Got(r.value.0, r.value.1, 1)
    else
      match Await(r.value.1, messages[1..])
      case Got(m, a, k) => Got(m, a, k + 1)
      case other => other
  }

  /** How the loop ends when `n` messages have been read already. */
  function After(n: nat, e: Ending): Ending {
    match e
    case Got(m, a, k) => Got(m, a, k + n)
    case other => other
  }

  // ---- Which streams end in a response, and what is left of them ----

  /** The id of the attach indication, outside any transaction. */
  predicate AttachIndication(m: seq<u8>) {
    Readable(m) && !Transaction(m) && FromBe(m[12..16]) == 0x6c
  }

  /** `pump` does not raise: the message is read, an attach indication has its third field, and the body prints. */
  predicate Pumps(m: seq<u8>) {
    && Readable(m)
    && (AttachIndication(m) ==> |UnpackUnknown(m[20..]).value| >= 3)
    && (AsyncResponse(m) && |m| >= 26 ==> UnpackUnknown(m[26..]).Ok?)
  }

  predicate Responds(m: seq<u8>) {
    Pumps(m) && KindOf(m) == Response
  }

  /** What the message leaves in the flag. */
  function FlagAfter(attach: Attach, m: seq<u8>): Attach
    requires Pumps(m)
  {
    if AttachIndication(m) then Some(UnpackUnknown(m[20..]).value[2]) else attach
  }

  /** Whether a message is pumped, and what it is read as, is told by its bytes and does not depend on the flag. */
  lemma PumpIs(attach: Attach, m: seq<u8>)
    ensures Pump(attach, m).Ok? <==> Pumps(m)
    ensures Pumps(m) ==> Pump(attach, m) == Ok((MessageOf(m), FlagAfter(attach, m)))
  {
    MessageRead(m);
    assert UnpackUnknown([]) == Ok([]);
  }

  predicate PumpsAll(messages: seq<seq<u8>>) {
    forall i :: 0 <= i < |messages| ==> Pumps(messages[i])
  }

  /** The third field of the last attach indication, or the flag as it was when there is none. */
  function LastFlag(before: Attach, messages: seq<seq<u8>>): Attach
    requires PumpsAll(messages)
    decreases |messages|
  {
    if messages == [] then before else
    var n := |messages| - 1;
    if AttachIndication(messages[n]) then Some(UnpackUnknown(messages[n][20..]).value[2])
    else LastFlag(before, messages[..n])
  }

  lemma {:induction false} LastFlagCons(before: Attach, m: seq<u8>, rest: seq<seq<u8>>)
    requires PumpsAll([m] + rest) && Pumps(m) && PumpsAll(rest)
    ensures LastFlag(before, [m] + rest) == LastFlag(FlagAfter(before, m), rest)
    decreases |rest|
  {
    var all := [m] + rest;
    if rest == [] {
      assert all[..0] == [];
    } else {
      var n := |rest| - 1;
      assert all[..|rest|] == [m] + rest[..n] && all[|rest|] == rest[n];
      LastFlagCons(before, m, rest[..n]);
    }
  }

  /** Message `k` pumps to a response, and every earlier one pumps to something else. */
  predicate FirstResponse(messages: seq<seq<u8>>, k: nat)
    requires k < |messages|
  {
    Responds(messages[k]) && forall i :: 0 <= i < k ==> Pumps(messages[i]) && !Responds(messages[i])
  }

  predicate AllPass(messages: seq<seq<u8>>) {
    forall i :: 0 <= i < |messages| ==> Pumps(messages[i]) && !Responds(messages[i])
  }

  lemma AwaitOnce(attach: Attach, messages: seq<seq<u8>>)
    requires messages != []
    ensures !Pumps(messages[0]) ==> Await(attach, messages).Died?
    ensures Responds(messages[0]) ==>
              Await(attach, messages) == Got(MessageOf(messages[0]), FlagAfter(attach, messages[0]), 1)
    ensures Pumps(messages[0]) && !Responds(messages[0]) ==>
              Await(attach, messages) == After(1, Await(FlagAfter(attach, messages[0]), messages[1..]))
  {
    PumpIs(attach, messages[0]);
  }

  lemma FirstResponseShift(messages: seq<seq<u8>>, k: nat)
    requires k + 1 < |messages| && Pumps(messages[0]) && !Responds(messages[0])
    ensures FirstResponse(messages, k + 1) <==> FirstResponse(messages[1..], k)
  {
    var tail := messages[1..];
    assert tail[k] == messages[k + 1];
    assert forall i :: 0 <= i < k ==> tail[i] == messages[i + 1];
    if FirstResponse(tail, k) {
      forall i | 0 <= i < k + 1
        ensures Pumps(messages[i]) && !Responds(messages[i])
      {
        if i > 0 { assert messages[i] == tail[i - 1]; }
      }
    }
  }

  lemma PassedFirst(messages: seq<seq<u8>>, k: nat)
    requires 0 < k < |messages| && FirstResponse(messages, k)
    ensures Pumps(messages[0]) && !Responds(messages[0]) && FirstResponse(messages[1..], k - 1)
  {
    FirstResponseShift(messages, k - 1);
  }

  /**
   * Over any stream: `execute` returns its first response, consumes exactly through that message,
   * and leaves in `attach_allowed` the third field of the last attach indication consumed, or what
   * it was if there was none.
   */
  lemma {:induction false} AwaitFirstResponse(attach: Attach, messages: seq<seq<u8>>, k: nat)
    requires k < |messages| && FirstResponse(messages, k)
    ensures PumpsAll(messages[..k + 1])
    ensures Await(attach, messages) == Got(MessageOf(messages[k]), LastFlag(attach, messages[..k + 1]), k + 1)
    decreases k
  {
    AwaitOnce(attach, messages);
    var m, rest := messages[0], messages[1..];
    if k == 0 {
      assert messages[..1] == [m] + [];
      LastFlagCons(attach, m, []);
    } else {
      PassedFirst(messages, k);
      AwaitFirstResponse(FlagAfter(attach, m), rest, k - 1);
      assert messages[..k + 1] == [m] + rest[..k];
      LastFlagCons(attach, m, rest[..k]);
    }
  }

  /** While no response comes, `execute` waits on, and the flag is what the last attach indication said. */
  lemma {:induction false} AwaitPasses(attach: Attach, messages: seq<seq<u8>>)
    requires AllPass(messages)
    ensures Await(attach, messages) == Waiting(LastFlag(attach, messages))
    decreases |messages|
  {
    if messages != [] {
      var m, rest := messages[0], messages[1..];
      AwaitOnce(attach, messages);
      AllPassTail(m, rest, messages);
      AwaitPasses(FlagAfter(attach, m), rest);
      LastFlagCons(attach, m, rest);
    }
  }

  lemma AllPassTail(m: seq<u8>, rest: seq<seq<u8>>, messages: seq<seq<u8>>)
    requires messages != [] && m == messages[0] && rest == messages[1..] && AllPass(messages)
    ensures Pumps(m) && !Responds(m) && AllPass(rest) && PumpsAll(rest)
    ensures messages == [m] + rest && PumpsAll([m] + rest)
  {
  }

  lemma {:induction false} AwaitEnds(attach: Attach, messages: seq<seq<u8>>)
    ensures var e := Await(attach, messages);
            && (e.Got? ==> 1 <= e.consumed <= |messages| && FirstResponse(messages, e.consumed - 1))
            && (e.Waiting? ==> AllPass(messages))
    decreases |messages|
  {
    if messages != [] {
      AwaitOnce(attach, messages);
      if Pumps(messages[0]) && !Responds(messages[0]) {
        var mid := FlagAfter(attach, messages[0]);
        var rest := Await(mid, messages[1..]);
        AwaitEnds(mid, messages[1..]);
        if rest.Got? { FirstResponseShift(messages, rest.consumed - 1); }
        if rest.Waiting? { AllPassFrom(messages); }
      }
    }
  }

  lemma AllPassFrom(messages: seq<seq<u8>>)
    requires messages != [] && Pumps(messages[0]) && !Responds(messages[0]) && AllPass(messages[1..])
    ensures AllPass(messages)
  {
    forall i | 0 <= i < |messages|
      ensures Pumps(messages[i]) && !Responds(messages[i])
    {
      if i > 0 { assert messages[i] == messages[1..][i - 1]; }
    }
  }

  /**
   * `execute` returns exactly on the streams in which some message pumps to a response and every
   * earlier one pumps without raising; it is left waiting exactly when every message pumps and none
   * is a response; on any other stream it dies.
   */
  lemma AwaitGotIff(attach: Attach, messages: seq<seq<u8>>)
    ensures Await(attach, messages).Got? <==> exists k :: 0 <= k < |messages| && FirstResponse(messages, k)
    ensures Await(attach, messages).Waiting? <==> AllPass(messages)
  {
    AwaitEnds(attach, messages);
    forall k | 0 <= k < |messages| && FirstResponse(messages, k)
      ensures Await(attach, messages).Got?
    {
      AwaitFirstResponse(attach, messages, k);
    }
    if AllPass(messages) { AwaitPasses(attach, messages); }
  }

  // ---- Acknowledgements and indications in front of a response ----

  /** A message as the modem writes it. */
  datatype Note = Note(word: nat, code: nat, body: seq<u8>)

  ghost predicate Sendable(n: Note) {
    && n.word < 0x1_0000_0000 && n.code < 0x1_0000_0000 && |n.body| + 16 < 0x1_0000_0000
    && UnpackUnknown(n.body).Ok?
  }

  function NoteWire(n: Note): seq<u8>
    requires Sendable(n)
  {
    Le32(|n.body| + 16) + AsnInt4(|n.body| + 16) + AsnInt4(n.code) + Be32(n.word) + n.body
  }

  predicate Indication(n: Note) {
    n.word / 256 != 0x110001
  }

  predicate Acknowledgement(n: Note) {
    n.word / 256 == 0x110001 && n.word % 256 != 0 && n.code >= 2000
  }

  /** What may come before a response: an acknowledgement or an indication; one about attaching has three fields. */
  ghost predicate Chatter(n: Note) {
    && Sendable(n) && (Indication(n) || Acknowledgement(n))
    && (Indication(n) && n.code == 0x6c ==> |UnpackUnknown(n.body).value| >= 3)
  }

  ghost predicate AllChatter(notes: seq<Note>) {
    forall n :: n in notes ==> Chatter(n)
  }

  /** The flag after these messages, by the last attach indication among them. */
  ghost function Announced(before: Attach, notes: seq<Note>): Attach
    requires AllChatter(notes)
    decreases |notes|
  {
    if notes == [] then before else
    var last := notes[|notes| - 1];
    assert last in notes;
    if Indication(last) && last.code == 0x6c then Some(UnpackUnknown(last.body).value[2])
    else Announced(before, notes[..|notes| - 1])
  }

  function Wires(notes: seq<Note>): (ms: seq<seq<u8>>)
    requires forall n :: n in notes ==> Sendable(n)
    ensures |ms| == |notes|
  {
    seq(|notes|, i requires 0 <= i < |notes| => NoteWire(notes[i]))
  }

  lemma NoteBytes(n: Note)
    requires Sendable(n)
    ensures var m := NoteWire(n);
            && |m| >= 20 && m[20..] == n.body
            && FromBe(m[12..16]) == n.code && (Transaction(m) <==> !Indication(n)) && m[19] == n.word % 256
            && (!AsyncResponse(m) ==> Readable(m))
  {
    var total, m := |n.body| + 16, NoteWire(n);
    HeaderFields(total, n.code, n.word, n.body);
    Be32Value(n.code);
    Be32Value(n.word);
    var word := m[16..20];
    assert word == Be32(n.word) && word[..3] == [m[16], m[17], m[18]];
    WordBytes(word);
  }

  lemma ChatterPasses(n: Note)
    requires Chatter(n)
    ensures var m := NoteWire(n);
            && Pumps(m) && !Responds(m)
            && (AttachIndication(m) <==> Indication(n) && n.code == 0x6c)
            && (AttachIndication(m) ==> UnpackUnknown(m[20..]).value[2] == UnpackUnknown(n.body).value[2])
  {
    NoteBytes(n);
  }

  lemma {:induction false} FlagAnnounced(before: Attach, notes: seq<Note>)
    requires AllChatter(notes)
    ensures AllPass(Wires(notes)) && LastFlag(before, Wires(notes)) == Announced(before, notes)
    decreases |notes|
  {
    forall i | 0 <= i < |notes|
      ensures Pumps(Wires(notes)[i]) && !Responds(Wires(notes)[i])
    {
      ChatterPasses(notes[i]);
    }
    if notes != [] {
      var n := |notes| - 1;
      ChatterPasses(notes[n]);
      assert AllChatter(notes[..n]);
      assert Wires(notes)[..n] == Wires(notes[..n]);
      FlagAnnounced(before, notes[..n]);
    }
  }

  /**
   * Any acknowledgements and indications with decodable bodies, then the bytes of a request, then
   * anything: `execute` passes over them all, returns the last one as its response with the
   * original body and fields, leaves what follows unread, and has the flag at the third field of
   * the last attach indication.
   */
  lemma ChatterThenResponse(before: Attach, notes: seq<Note>, cmd: nat, body: seq<u8>, isAsync: bool,
                            more: seq<seq<u8>>)
    requires AllChatter(notes)
    requires TotalLength(body, isAsync) < 0x1_0000_0000 && cmd < 0x1_0000_0000 && UnpackUnknown(body).Ok?
    requires !isAsync || cmd < 2000
    ensures Request(cmd, body, isAsync).Ok?
    ensures Await(before, Wires(notes) + [Request(cmd, body, isAsync).value] + more)
            == Got(Message(TidWord(isAsync), Response, cmd, body, UnpackUnknown(body).value, true),
                   Announced(before, notes), |notes| + 1)
  {
    RequestReadsBack(cmd, body, isAsync);
    FlagAnnounced(before, notes);
    var last := Request(cmd, body, isAsync).value;
    var all := Wires(notes) + [last] + more;
    ResponsePumps(before, cmd, body, isAsync);
    forall i | 0 <= i < |notes|
      ensures Pumps(all[i]) && !Responds(all[i])
    {
      assert all[i] == Wires(notes)[i];
    }
    AwaitFirstResponse(before, all, |notes|);
    assert all[..|notes| + 1] == Wires(notes) + [last];
    assert all[..|notes| + 1][..|notes|] == Wires(notes);
  }

  /** What is read back as a response is pumped as one, and is no indication. */
  lemma ResponsePumps(before: Attach, cmd: nat, body: seq<u8>, isAsync: bool)
    requires TotalLength(body, isAsync) < 0x1_0000_0000 && cmd < 0x1_0000_0000 && UnpackUnknown(body).Ok?
    requires !isAsync || cmd < 2000
    ensures Request(cmd, body, isAsync).Ok?
    ensures var m := Request(cmd, body, isAsync).value;
            && Responds(m) && !AttachIndication(m)
            && MessageOf(m) == Message(TidWord(isAsync), Response, cmd, body, UnpackUnknown(body).value, true)
  {
    RequestReadsBack(cmd, body, isAsync);
    var m := Request(cmd, body, isAsync).value;
    MessageRead(m);
    PumpIs(before, m);
  }
}
