/** MQTT packs as gate/base/mqtt/mqtt.go has them, what ReadPack makes of a byte stream, and the
    bytes DelayWritePack appends. Bytes are integers below 256; a shift by k is a division by or a
    product with 2^k, and a mask with 2^k - 1 a remainder. */
module Mqtt {
  import opened Values
  import opened Bits

  const CONNECT := 1
  const CONNACK := 2
  const PUBLISH := 3
  const PUBACK := 4
  const PUBREC := 5
  const PUBREL := 6
  const PUBCOMP := 7
  const SUBSCRIBE := 8
  const SUBACK := 9
  const UNSUBSCRIBE := 10
  const UNSUBACK := 11
  const PINGREQ := 12
  const PINGRESP := 13
  const DISCONNECT := 14

  /** The largest Remaining Length the reader's three length bytes can carry. */
  const MAX_READABLE := 2097151

  datatype Flags = Flags(
    userName: bool, password: bool, willRetain: bool, willQos: nat,
    willFlag: bool, cleanSession: bool, reserved: bool)

  datatype Connect = Connect(
    protocol: bytes, version: byte, flags: Flags, keepAlive: nat, id: bytes,
    willTopic: Option<bytes>, willMsg: Option<bytes>, userName: Option<bytes>, password: Option<bytes>)

  datatype Topic = Topic(name: bytes, qos: byte)

  datatype Variable =
    | Nothing
    | ConnectVar(connect: Connect)
    | ConnackVar(reserved: byte, returnCode: byte)
    | PublishVar(topic: bytes, mid: nat, msg: bytes)
    | AckVar(mid: nat)
    | SubscribeVar(mid: nat, topics: seq<Topic>)
    | SubackVar(mid: nat, qos: byte)
    | UnsubscribeVar(mid: nat, topics: seq<Topic>)
    | UnsubackVar(mid: nat)

  datatype Pack = Pack(msgType: nat, dup: nat, qos: nat, retain: nat, length: nat, variable: Variable)

  datatype Error = Eof | TooLong | OutOfRange | IdentifierRejected | LengthError | WrongLength

  /** A value read and the bytes after it, or an error. */
  datatype Parsed<+T> = Ok(value: T, rest: bytes) | Fail(error: Error) {
    predicate IsFailure() { Fail? }
    function PropagateFailure<U>(): Parsed<U> requires Fail? { Fail(error) }
    function Extract(): (T, bytes) requires Ok? { (value, rest) }
  }

  // ------------------------------------------------------------ reading

  function ReadByte(s: bytes): Parsed<byte>
  {
    if s == [] then Fail(Eof) else Ok(s[0], s[1..])
  }

  function ReadFull(s: bytes, n: nat): Parsed<bytes>
  {
    if |s| < n then Fail(Eof) else Ok(s[..n], s[n..])
  }

  function Word(hi: byte, lo: byte): nat
  {
    hi as int * 256 + lo as int
  }

  /** Two bytes, high byte first. */
  function ReadInt(s: bytes): Parsed<nat>
  {
    if |s| < 2 then Fail(Eof) else Ok(Word(s[0], s[1]), s[2..])
  }

  function ReadString(s: bytes): Parsed<bytes>
  {
    var (n, r) :- ReadInt(s);
    ReadFull(r, n)
  }

  /** The loop over length bytes: count is how many header bytes were read so far. */
  function ReadLengthFrom(s: bytes, count: nat, multiplier: nat, length: nat): Parsed<nat>
  {
    var (b, r) :- ReadByte(s);
    var length' := length + b % 128 * multiplier;
    if b / 128 != 0 && count + 1 < 4 then ReadLengthFrom(r, count + 1, multiplier * 128, length')
    else Ok(length', r)
  }

  function ReadLength(s: bytes): Parsed<nat>
  {
    ReadLengthFrom(s, 1, 1, 0)
  }

  /** The connect flags, one bit after the other from the top. */
  function ParseFlags(b: byte): Flags
  {
    var b1 := b % 128;
    var b2 := b1 % 64;
    var b3 := b2 % 32;
    var b4 := b3 % 8;
    var b5 := b4 % 4;
    Flags(b / 128 != 0, b1 / 64 != 0, b2 / 32 != 0, b3 / 8, b4 / 4 != 0, b5 / 2 != 0, b5 % 2 != 0)
  }

  /** Will topic and message, when the flag asks for them, and what is then left of the count. */
  function ParseWill(s: bytes, will: bool, left: int): Parsed<(Option<bytes>, Option<bytes>, int)>
  {
    if !will then Ok((None, None, left), s) else
    var (topic, r) :- ReadString(s);
    if left - |topic| < 0 then Fail(LengthError) else
    var (msg, r2) :- ReadString(r);
    Ok((Some(topic), Some(msg), left - |topic| - |msg|), r2)
  }

  /** User name or password, when flagged and the count is not used up. */
  function ParseCredential(s: bytes, flagged: bool, left: int): Parsed<(Option<bytes>, int)>
  {
    if !flagged || left <= 0 then Ok((None, left), s) else
    var (name, r) :- ReadString(s);
    if left - |name| < 0 then Fail(LengthError) else Ok((Some(name), left - |name|), r)
  }

  /** The payload after the client id. */
  function ParseConnectTail(s: bytes, c: Connect, left: int): Parsed<Connect>
  {
    var (will, r) :- ParseWill(s, c.flags.willFlag, left);
    var (user, r2) :- ParseCredential(r, c.flags.userName, will.2);
    var (pass, r3) :- ParseCredential(r2, c.flags.password, user.1);
    Ok(c.(willTopic := will.0, willMsg := will.1, userName := user.0, password := pass.0), r3)
  }

  /** Version, flags and keep-alive time. */
  function ParseLevel(s: bytes): Parsed<(byte, Flags, nat)>
  {
    var (version, r) :- ReadByte(s);
    var (flags, r2) :- ReadByte(r);
    var (keepAlive, r3) :- ReadInt(r2);
    Ok((version, ParseFlags(flags), keepAlive), r3)
  }

  function ParseConnect(s: bytes, length: nat): Parsed<Connect>
  {
    var (protocol, r) :- ReadString(s);
    if |protocol| > length - 4 then Fail(OutOfRange) else
    var (level, r2) :- ParseLevel(r);
    var (id, r3) :- ReadString(r2);
    if |id| > 64 || |id| < 1 then Fail(IdentifierRejected) else
    ParseConnectTail(r3, Connect(protocol, level.0, level.1, level.2, id, None, None, None, None),
                     length - 2 - |protocol| - 4 - |id|)
  }

  function ParsePublish(s: bytes, length: nat, qos: nat): Parsed<Variable>
  {
    var (topic, r) :- ReadString(s);
    var vlen := length - |topic| - 2;
    if |topic| < 1 then Fail(LengthError)
    else if qos > 0 then
      if vlen < 2 then Fail(LengthError) else
      var (mid, r2) :- ReadInt(r);
      var (msg, r3) :- ReadFull(r2, vlen - 2);
      Ok(PublishVar(topic, mid, msg), r3)
    else if vlen <= 0 then Ok(PublishVar(topic, 0, []), r)
    else
      var (msg, r2) :- ReadFull(r, vlen);
      Ok(PublishVar(topic, 0, msg), r2)
  }

  function ParseAck(s: bytes, length: nat): Parsed<nat>
  {
    if length != 2 then Fail(WrongLength) else ReadInt(s)
  }

  function ParseSuback(s: bytes, length: nat): Parsed<Variable>
  {
    if length != 3 then Fail(WrongLength) else
    var (mid, r) :- ReadInt(s);
    var (qos, r2) :- ReadByte(r);
    Ok(SubackVar(mid, qos), r2)
  }

  /** A name whose read error is ignored: what is missing stays zero. */
  function NameOf(s: bytes, n: nat): bytes
  {
    if |s| < n then s + Zeros(n - |s|) else s[..n]
  }

  function After(s: bytes, n: nat): bytes
  {
    if |s| < n then [] else s[n..]
  }

  /** The topic loop; left starts as the whole Remaining Length. A read error ends it silently. */
  function ReadTopics(s: bytes, left: int, withQos: bool): (seq<Topic>, bytes)
    decreases left
  {
    if left <= 3 then ([], s)
    else if |s| < 2 then ([], [])
    else
      var n := Word(s[0], s[1]);
      var name, r := NameOf(s[2..], n), After(s[2..], n);
      if withQos then
        if r == [] then ([], [])
        else
          var (ts, r2) := ReadTopics(r[1..], left - 2 - n - 1, withQos);
          ([Topic(name, r[0])] + ts, r2)
      else
        var (ts, r2) := ReadTopics(r, left - 2 - n, withQos);
        ([Topic(name, 0)] + ts, r2)
  }

  lemma TopicStep(s: bytes, left: int, withQos: bool, name: bytes, r: bytes)
    requires left > 3 && |s| >= 2 && Word(s[0], s[1]) == |name|
    requires NameOf(s[2..], |name|) == name && After(s[2..], |name|) == r && (withQos ==> r != [])
    ensures
      var (ts, r2) := ReadTopics(if withQos then r[1..] else r, left - 2 - |name| - (if withQos then 1 else 0), withQos);
      ReadTopics(s, left, withQos) == ([Topic(name, if withQos then r[0] else 0)] + ts, r2)
  {
  }

  lemma TopicsEnd(s: bytes, left: int, withQos: bool)
    ensures left <= 3 ==> ReadTopics(s, left, withQos) == ([], s)
    ensures left > 3 && (|s| < 2 || (withQos && After(s[2..], Word(s[0], s[1])) == [])) ==>
      ReadTopics(s, left, withQos) == ([], [])
  {
  }

  function ParseTopics(s: bytes, length: nat, withQos: bool): Parsed<(nat, seq<Topic>)>
  {
    var (mid, r) :- ReadInt(s);
    var (ts, r2) := ReadTopics(r, length, withQos);
    Ok((mid, ts), r2)
  }

  function ParseBody(s: bytes, msgType: nat, qos: nat, length: nat): Parsed<Variable>
  {
    if msgType == CONNECT then
      var (c, r) :- ParseConnect(s, length);
      Ok(ConnectVar(c), r)
    else if msgType == PUBLISH then ParsePublish(s, length, qos)
    else if msgType == PUBACK || msgType == PUBREC || msgType == PUBREL || msgType == PUBCOMP then
      var (mid, r) :- ParseAck(s, length);
      Ok(AckVar(mid), r)
    else if msgType == SUBSCRIBE then
      var (t, r) :- ParseTopics(s, length, true);
      Ok(SubscribeVar(t.0, t.1), r)
    else if msgType == SUBACK then ParseSuback(s, length)
    else if msgType == UNSUBSCRIBE then
      var (t, r) :- ParseTopics(s, length, false);
      Ok(UnsubscribeVar(t.0, t.1), r)
    else if msgType == UNSUBACK then
      var (mid, r) :- ParseAck(s, length);
      Ok(UnsubackVar(mid), r)
    else if msgType == PINGREQ || msgType == DISCONNECT then Ok(Nothing, s)
    else
      var (_, r) :- ReadFull(s, length);
      Ok(Nothing, r)
  }

  /** One pack off the stream. */
  function ParsePack(s: bytes, maxLength: int): Parsed<Pack>
  {
    var (fixed, r) :- ReadByte(s);
    var (length, r2) :- ReadLength(r);
    if length > maxLength then Fail(TooLong) else
    var qos := fixed % 8 / 2;
    var (v, r3) :- ParseBody(r2, fixed / 16, qos, length);
    Ok(Pack(fixed / 16, fixed % 16 / 8, qos, fixed % 2, length, v), r3)
  }

  // ------------------------------------------------------------ writing

  function FixedHeader(p: Pack): byte
  {
    var t, d, q := p.msgType * 16 % 256, p.dup * 8 % 256, p.qos * 2 % 256;
    ByteRange();
    OrBelow(t, d, 8);
    OrBelow(Or(t, d), q, 8);
    Or(Or(t, d), q)
  }

  lemma ByteRange()
    ensures Pow2(8) == 256
  {
    assert Pow2(4) == 16 by { assert Pow2(2) == 4; assert Pow2(3) == 8; }
    assert Pow2(6) == 64 by { assert Pow2(5) == 32; }
    assert Pow2(7) == 128;
  }

  /** Seven bits a byte, lowest first, the top bit set on all but the last. */
  function EncodeLength(n: nat): bytes
  {
    if n / 128 > 0 then [n % 128 + 128] + EncodeLength(n / 128) else [n % 128]
  }

  function EncodeInt(n: nat): bytes
  {
    [n / 256 % 256, n % 256]
  }

  function EncodeString(b: bytes): bytes
  {
    EncodeInt(|b|) + b
  }

  function EncodeTopics(ts: seq<Topic>, withQos: bool): bytes
  {
    if ts == [] then [] else
      EncodeString(ts[0].name) + (if withQos then [ts[0].qos] else []) + EncodeTopics(ts[1..], withQos)
  }

  function PublishLength(qos: nat, topic: bytes, msg: bytes): nat
  {
    (if qos > 0 then 4 else 2) + |topic| + |msg|
  }

  /** The length bytes; a length of 128^4 or more overruns the four-byte buffer and panics. */
  function LengthBytes(n: nat): Option<bytes>
  {
    if n < 268435456 then Some(EncodeLength(n)) else None
  }

  /** What follows the fixed header byte; None where the source panics because the variable part is
      not of the type's kind or a length does not fit. */
  function EncodeBody(p: Pack): Option<bytes>
  {
    if p.msgType == CONNACK then
      if p.variable.ConnackVar? then Some([2, p.variable.reserved, p.variable.returnCode]) else None
    else if p.msgType == PUBLISH then
      if !p.variable.PublishVar? then None else
      var v := p.variable;
      var l := LengthBytes(PublishLength(p.qos, v.topic, v.msg));
      if l.None? then None else
      Some(l.value + EncodeString(v.topic) + (if p.qos > 0 then EncodeInt(v.mid) else []) + v.msg)
    else if p.msgType == PUBACK || p.msgType == PUBREC || p.msgType == PUBREL || p.msgType == PUBCOMP then
      if p.variable.AckVar? then Some([2] + EncodeInt(p.variable.mid)) else None
    else if p.msgType == SUBSCRIBE then
      if !p.variable.SubscribeVar? then None else
      var b := EncodeTopics(p.variable.topics, true);
      var l := LengthBytes(|b|);
      if l.None? then None else Some([l.value[0]] + EncodeInt(p.variable.mid) + b)
    else if p.msgType == SUBACK then
      if p.variable.SubackVar? then Some([3] + EncodeInt(p.variable.mid) + [p.variable.qos]) else None
    else if p.msgType == UNSUBSCRIBE then
      if !p.variable.UnsubscribeVar? then None else
      var b := EncodeTopics(p.variable.topics, false);
      var l := LengthBytes(|b|);
      if l.None? then None else Some([l.value[0]] + EncodeInt(p.variable.mid) + b)
    else if p.msgType == UNSUBACK then
      if p.variable.UnsubackVar? then Some([2] + EncodeInt(p.variable.mid)) else None
    else if p.msgType == PINGRESP then Some([0])
    else Some([])
  }

  function Encode(p: Pack): Option<bytes>
  {
    var b := EncodeBody(p);
    if b.None? then None else Some([FixedHeader(p)] + b.value)
  }
}
