/** Reading back what was written: the Remaining Length, single packs, and whole streams, cut
    anywhere. */
module MqttRoundTrip {
  import opened Values
  import opened Bits
  import opened Mqtt

  // ------------------------------------------------------------ integers, strings, lengths

  lemma IntRoundTrip(n: nat, rest: bytes)
    requires n < 65536
    ensures ReadInt(EncodeInt(n) + rest) == Ok(n, rest)
  {
    assert (EncodeInt(n) + rest)[2..] == rest;
  }

  lemma StringRoundTrip(b: bytes, rest: bytes)
    requires |b| < 65536
    ensures ReadString(EncodeString(b) + rest) == Ok(b, rest)
  {
    assert EncodeString(b) + rest == EncodeInt(|b|) + (b + rest);
    IntRoundTrip(|b|, b + rest);
    assert (b + rest)[..|b|] == b && (b + rest)[|b|..] == rest;
  }

  lemma FullRoundTrip(b: bytes, rest: bytes)
    ensures ReadFull(b + rest, |b|) == Ok(b, rest)
  {
    assert (b + rest)[..|b|] == b && (b + rest)[|b|..] == rest;
  }

  /** The value of length bytes as section 2.2.3 of MQTT 3.1.1 defines it: seven bits a byte. */
  function LengthValue(b: bytes): nat
  {
    if b == [] then 0 else b[0] as int % 128 + 128 * LengthValue(b[1..])
  }

  /** Below 128^4 the writer emits the minimal one to four bytes for a length. */
  lemma {:induction false} LengthIsMinimal(n: nat)
    ensures LengthValue(EncodeLength(n)) == n
    ensures |EncodeLength(n)| == if n < 128 then 1 else 1 + |EncodeLength(n / 128)|
    ensures n < 268435456 ==>
      |EncodeLength(n)| == if n < 128 then 1 else if n < 16384 then 2 else if n < 2097152 then 3 else 4
    ensures var b := EncodeLength(n);
      && (forall i :: 0 <= i < |b| - 1 ==> b[i] >= 128)
      && b[|b| - 1] < 128
      && (|b| > 1 ==> b[|b| - 1] != 0)
  {
    if n >= 128 {
      LengthIsMinimal(n / 128);
      assert EncodeLength(n)[1..] == EncodeLength(n / 128);
    }
  }

  lemma EncodeLengthSplit(n: nat, rest: bytes)
    ensures n < 128 ==> EncodeLength(n) + rest == [n] + rest
    ensures n >= 128 ==> EncodeLength(n) + rest == [n % 128 + 128] + (EncodeLength(n / 128) + rest)
  {
    if n >= 128 {
      Assoc([n % 128 + 128], EncodeLength(n / 128), rest);
    }
  }

  lemma Assoc(a: bytes, b: bytes, c: bytes)
    ensures a + b + c == a + (b + c)
  {
  }

  lemma ReadOneMore(b: byte, rest: bytes, count: nat, multiplier: nat, length: nat)
    ensures ReadLengthFrom([b] + rest, count, multiplier, length) ==
      if b >= 128 && count + 1 < 4 then ReadLengthFrom(rest, count + 1, multiplier * 128, length + (b - 128) * multiplier)
      else Ok(length + b % 128 * multiplier, rest)
  {
    assert ([b] + rest)[1..] == rest;
  }

  /** The reader stops after three bytes: it yields the length modulo 128^3, and leaves a fourth byte
      in the stream. */
  lemma LengthRead(n: nat, rest: bytes)
    requires n < 268435456
    ensures ReadLength(EncodeLength(n) + rest) ==
      Ok(n % 2097152, (if n < 2097152 then [] else [n / 2097152]) + rest)
  {
    EncodeLengthSplit(n, rest);
    if n < 128 {
      ReadFirst(n, rest);
      assert [] + rest == rest;
    } else {
      ReadFirst(n % 128 + 128, EncodeLength(n / 128) + rest);
      LengthSecond(n, n / 128, rest);
    }
  }

  lemma ReadFirst(b: byte, rest: bytes)
    ensures ReadLength([b] + rest) == if b >= 128 then ReadLengthFrom(rest, 2, 128, b - 128) else Ok(b, rest)
  {
    ReadOneMore(b, rest, 1, 1, 0);
  }

  lemma LengthSecond(n: nat, n1: nat, rest: bytes)
    requires n < 268435456 && n1 == n / 128 && n >= 128
    ensures ReadLengthFrom(EncodeLength(n1) + rest, 2, 128, n % 128) ==
      Ok(n % 2097152, (if n < 2097152 then [] else [n / 2097152]) + rest)
  {
    EncodeLengthSplit(n1, rest);
    if n1 < 128 {
      ReadOneMore(n1, rest, 2, 128, n % 128);
      assert n < 16384 && n == n1 * 128 + n % 128;
      assert [] + rest == rest;
    } else {
      ReadOneMore(n1 % 128 + 128, EncodeLength(n1 / 128) + rest, 2, 128, n % 128);
      LengthThird(n, n1, n1 / 128, rest);
    }
  }

  lemma Digits(n: nat)
    requires n < 268435456
    ensures
      var n1, n2 := n / 128, n / 128 / 128;
      && n % 2097152 == n % 128 + n1 % 128 * 128 + n2 % 128 * 16384
      && n / 2097152 == n2 / 128 < 128
      && (n < 2097152 <==> n2 < 128)
  {
  }

  lemma LengthThird(n: nat, n1: nat, n2: nat, rest: bytes)
    requires n < 268435456 && n1 == n / 128 && n2 == n1 / 128 && n1 >= 128
    ensures ReadLengthFrom(EncodeLength(n2) + rest, 3, 16384, n % 128 + n1 % 128 * 128) ==
      Ok(n % 2097152, (if n < 2097152 then [] else [n / 2097152]) + rest)
  {
    Digits(n);
    var low := n % 128 + n1 % 128 * 128;
    EncodeLengthSplit(n2, rest);
    if n2 < 128 {
      ReadOneMore(n2, rest, 3, 16384, low);
      assert [] + rest == rest;
    } else {
      var n3 := n2 / 128;
      EncodeLengthSplit(n3, rest);
      ReadOneMore(n2 % 128 + 128, [n3] + rest, 3, 16384, low);
    }
  }

  /** So a length survives exactly up to 2097151. */
  lemma LengthRoundTrip(n: nat, rest: bytes)
    requires n < 268435456
    ensures ReadLength(EncodeLength(n) + rest) == Ok(n, rest) <==> n <= MAX_READABLE
  {
    LengthRead(n, rest);
  }

  // ------------------------------------------------------------ the fixed header

  lemma HeaderFields(p: Pack)
    requires p.msgType < 16 && p.dup < 2 && p.qos < 4
    ensures FixedHeader(p) == p.msgType * 16 + p.dup * 8 + p.qos * 2
  {
    var t, d, q := p.msgType * 16 % 256, p.dup * 8 % 256, p.qos * 2 % 256;
    assert t == p.msgType * 16 && d == p.dup * 8 && q == p.qos * 2;
    FieldsDisjoint(p.msgType, p.dup, p.qos);
    assert FixedHeader(p) == Or(Or(t, d), q);
  }

  lemma FieldsDisjoint(t: nat, d: nat, q: nat)
    requires t < 16 && d < 2 && q < 4
    ensures Or(Or(t * 16, d * 8), q * 2) == t * 16 + d * 8 + q * 2
  {
    OrBits(t * 16, d * 8, q * 2);
  }

  lemma OrBits(t: nat, d: nat, q: nat)
    requires t % 16 == 0 && d % 8 == 0 && d < 16 && q < 8
    ensures Or(Or(t, d), q) == t + d + q
  {
    hide Or, Pow2;
    SmallPowers();
    OrDisjoint(t, d, 4);
    OrDisjoint(t + d, q, 3);
  }

  lemma SmallPowers()
    ensures Pow2(3) == 8 && Pow2(4) == 16
  {
    assert Pow2(2) == 4;
  }

  lemma HeaderRoundTrip(p: Pack)
    requires p.msgType < 16 && p.dup < 2 && p.qos < 4
    ensures var b := FixedHeader(p);
      b / 16 == p.msgType && b % 16 / 8 == p.dup && b % 8 / 2 == p.qos && b % 2 == 0
  {
    hide FixedHeader;
    HeaderFields(p);
  }

  // ------------------------------------------------------------ one pack

  /** The Remaining Length of a pack's encoding. */
  function BodyLength(p: Pack): nat
  {
    if p.msgType == PUBLISH && p.variable.PublishVar? then PublishLength(p.qos, p.variable.topic, p.variable.msg)
    else if p.msgType == SUBACK then 3
    else if p.msgType == PINGRESP then 0
    else 2
  }

  ghost predicate IsAck(t: nat)
  {
    t == PUBACK || t == PUBREC || t == PUBREL || t == PUBCOMP
  }

  /** The packs a server writes, with the fields in the range the format has room for. */
  ghost predicate ServerPack(p: Pack)
  {
    && p.dup < 2 && p.qos < 4
    && (|| (p.msgType == CONNACK && p.variable.ConnackVar?)
        || (p.msgType == PUBLISH && p.variable.PublishVar? && |p.variable.topic| < 65536 && p.variable.mid < 65536)
        || (IsAck(p.msgType) && p.variable.AckVar? && p.variable.mid < 65536)
        || (p.msgType == SUBACK && p.variable.SubackVar? && p.variable.mid < 65536)
        || (p.msgType == UNSUBACK && p.variable.UnsubackVar? && p.variable.mid < 65536)
        || (p.msgType == PINGRESP && p.variable == Nothing))
  }

  /** What a writer can check to be sure the pack is read at all: a topic, and a length the reader takes. */
  ghost predicate Sendable(p: Pack, maxLength: int)
  {
    && ServerPack(p)
    && BodyLength(p) <= MAX_READABLE && BodyLength(p) <= maxLength
    && (p.msgType == PUBLISH ==> |p.variable.topic| > 0)
  }

  /** And to be sure that nothing of it is lost: no retain bit, which is not written, and an id only with
      a QoS that writes it. */
  ghost predicate Lossless(p: Pack)
  {
    p.retain == 0 && (p.msgType == PUBLISH && p.variable.PublishVar? && p.qos == 0 ==> p.variable.mid == 0)
  }

  /** The pack as its reader sees it: without retain bit, without an id at QoS 0, and without the body of
      a CONNACK, for which the reader has no case. */
  function Received(p: Pack): Pack
  {
    p.(retain := 0, length := BodyLength(p), variable :=
      if p.msgType == CONNACK then Nothing
      else if p.msgType == PUBLISH && p.variable.PublishVar? && p.qos == 0 then PublishVar(p.variable.topic, 0, p.variable.msg)
      else p.variable)
  }

  /** What follows the length bytes. */
  function Payload(p: Pack): bytes
  {
    match p.variable
    case ConnackVar(reserved, code) => [reserved, code]
    case PublishVar(topic, mid, msg) => EncodeString(topic) + ((if p.qos > 0 then EncodeInt(mid) else []) + msg)
    case AckVar(mid) => EncodeInt(mid)
    case SubackVar(mid, qos) => EncodeInt(mid) + [qos]
    case UnsubackVar(mid) => EncodeInt(mid)
    case _ => []
  }

  lemma SmallLength(n: nat)
    requires n < 128
    ensures EncodeLength(n) == [n]
  {
  }

  lemma EncodeIs(p: Pack)
    requires ServerPack(p)
    ensures BodyLength(p) < 268435456 ==>
      Encode(p) == Some([FixedHeader(p)] + (EncodeLength(BodyLength(p)) + Payload(p)))
    ensures BodyLength(p) >= 268435456 ==> Encode(p) == None
  {
    if p.msgType == PUBLISH {
      var v := p.variable;
      var l := EncodeLength(BodyLength(p));
      assert l + EncodeString(v.topic) + (if p.qos > 0 then EncodeInt(v.mid) else []) + v.msg == l + Payload(p);
    } else {
      SmallLength(BodyLength(p));
      assert EncodeBody(p).value == [BodyLength(p)] + Payload(p);
    }
  }

  lemma PublishWithId(topic: bytes, mid: nat, msg: bytes, qos: nat, rest: bytes)
    requires 0 < |topic| < 65536 && mid < 65536 && qos > 0
    ensures ParsePublish(EncodeString(topic) + (EncodeInt(mid) + (msg + rest)), 4 + |topic| + |msg|, qos) ==
      Ok(PublishVar(topic, mid, msg), rest)
  {
    StringRoundTrip(topic, EncodeInt(mid) + (msg + rest));
    IntRoundTrip(mid, msg + rest);
    FullRoundTrip(msg, rest);
  }

  lemma PublishWithoutId(topic: bytes, msg: bytes, rest: bytes)
    requires 0 < |topic| < 65536
    ensures ParsePublish(EncodeString(topic) + (msg + rest), 2 + |topic| + |msg|, 0) ==
      Ok(PublishVar(topic, 0, msg), rest)
  {
    StringRoundTrip(topic, msg + rest);
    FullRoundTrip(msg, rest);
    if msg == [] {
      assert msg + rest == rest;
    }
  }

  lemma PublishPayload(p: Pack, rest: bytes)
    requires ServerPack(p) && p.msgType == PUBLISH
    ensures ParsePublish(Payload(p) + rest, BodyLength(p), p.qos) ==
      if |p.variable.topic| == 0 then Fail(LengthError)
      else Ok(PublishVar(p.variable.topic, if p.qos > 0 then p.variable.mid else 0, p.variable.msg), rest)
  {
    var v := p.variable;
    var id := if p.qos > 0 then EncodeInt(v.mid) else [];
    assert Payload(p) + rest == EncodeString(v.topic) + (id + (v.msg + rest));
    if |v.topic| == 0 {
      StringRoundTrip(v.topic, id + (v.msg + rest));
    } else if p.qos > 0 {
      PublishWithId(v.topic, v.mid, v.msg, p.qos, rest);
    } else {
      assert id + (v.msg + rest) == v.msg + rest;
      PublishWithoutId(v.topic, v.msg, rest);
    }
  }

  lemma SubackPayload(mid: nat, qos: byte, rest: bytes)
    requires mid < 65536
    ensures ParseSuback(EncodeInt(mid) + [qos] + rest, 3) == Ok(SubackVar(mid, qos), rest)
  {
    assert EncodeInt(mid) + [qos] + rest == EncodeInt(mid) + ([qos] + rest);
    IntRoundTrip(mid, [qos] + rest);
    assert ([qos] + rest)[1..] == rest;
  }

  lemma PayloadRoundTrip(p: Pack, rest: bytes)
    requires ServerPack(p) && p.msgType != PUBLISH
    ensures ParseBody(Payload(p) + rest, p.msgType, p.qos, BodyLength(p)) == Ok(Received(p).variable, rest)
  {
    if p.msgType == SUBACK {
      SubackPayload(p.variable.mid, p.variable.qos, rest);
    } else if p.msgType == CONNACK || p.msgType == PINGRESP {
      FullRoundTrip(Payload(p), rest);
    } else {
      IntRoundTrip(p.variable.mid, rest);
    }
  }

  lemma ParseAfterLength(header: byte, n: nat, body: bytes, maxLength: int)
    requires n <= MAX_READABLE
    ensures ParsePack([header] + (EncodeLength(n) + body), maxLength) ==
      if n > maxLength then Fail(TooLong) else
      var v := ParseBody(body, header / 16, header % 8 / 2, n);
      if v.Fail? then Fail(v.error) else
      Ok(Pack(header / 16, header % 16 / 8, header % 8 / 2, header % 2, n, v.value), v.rest)
  {
    assert ([header] + (EncodeLength(n) + body))[1..] == EncodeLength(n) + body;
    LengthRoundTrip(n, body);
  }

  lemma ParseEncoded(p: Pack, rest: bytes, maxLength: int)
    requires ServerPack(p) && BodyLength(p) <= MAX_READABLE && BodyLength(p) <= maxLength
    ensures Encode(p).Some?
    ensures ParsePack(Encode(p).value + rest, maxLength) ==
      if p.msgType == PUBLISH && |p.variable.topic| == 0 then Fail(LengthError) else Ok(Received(p), rest)
  {
    EncodeIs(p);
    var h, l, b := FixedHeader(p), EncodeLength(BodyLength(p)), Payload(p);
    assert Encode(p).value + rest == [h] + (l + (b + rest));
    ParseAfterLength(h, BodyLength(p), b + rest, maxLength);
    HeaderRoundTrip(p);
    if p.msgType == PUBLISH {
      PublishPayload(p, rest);
    } else {
      PayloadRoundTrip(p, rest);
    }
  }

  /** A sendable pack is read, and nothing after it is touched. */
  lemma PackRoundTrip(p: Pack, rest: bytes, maxLength: int)
    requires Sendable(p, maxLength)
    ensures Encode(p).Some? && ParsePack(Encode(p).value + rest, maxLength) == Ok(Received(p), rest)
  {
    ParseEncoded(p, rest, maxLength);
  }

  /** For PUBLISH the conditions are exact: the pack comes back as it was if and only if it is sendable
      and loses nothing. */
  lemma PublishRoundTripIff(p: Pack, rest: bytes, maxLength: int)
    requires ServerPack(p) && p.msgType == PUBLISH
    ensures Sendable(p, maxLength) && Lossless(p) <==>
      Encode(p).Some? && ParsePack(Encode(p).value + rest, maxLength) == Ok(p.(length := BodyLength(p)), rest)
  {
    EncodeIs(p);
    if BodyLength(p) <= MAX_READABLE {
      if BodyLength(p) <= maxLength {
        ParseEncoded(p, rest, maxLength);
      } else {
        var b := Payload(p) + rest;
        assert Encode(p).value + rest == [FixedHeader(p)] + (EncodeLength(BodyLength(p)) + b);
        ParseAfterLength(FixedHeader(p), BodyLength(p), b, maxLength);
      }
    } else if Encode(p).Some? {
      LongLength(p, rest, maxLength);
    }
  }

  lemma LongLength(p: Pack, rest: bytes, maxLength: int)
    requires ServerPack(p) && p.msgType == PUBLISH && MAX_READABLE < BodyLength(p) < 268435456
    ensures Encode(p).Some?
    ensures var r := ParsePack(Encode(p).value + rest, maxLength); r.Ok? ==> r.value.length != BodyLength(p)
  {
    EncodeIs(p);
    var l, b := EncodeLength(BodyLength(p)), Payload(p);
    assert Encode(p).value + rest == [FixedHeader(p)] + (l + (b + rest));
    assert ([FixedHeader(p)] + (l + (b + rest)))[1..] == l + (b + rest);
    LengthRead(BodyLength(p), b + rest);
  }

  // ------------------------------------------------------------ streams

  ghost predicate AllSendable(ps: seq<Pack>, maxLength: int)
  {
    forall p :: p in ps ==> Sendable(p, maxLength)
  }

  /** The concatenated encodings. */
  function Encoded(p: Pack): bytes
  {
    var e := Encode(p);
    if e.Some? then e.value else []
  }

  function Stream(ps: seq<Pack>): bytes
  {
    if ps == [] then [] else Stream(ps[..|ps| - 1]) + Encoded(ps[|ps| - 1])
  }

  lemma StreamAppend(ps: seq<Pack>, p: Pack)
    ensures Stream(ps + [p]) == Stream(ps) + Encoded(p)
  {
    assert (ps + [p])[..|ps|] == ps;
  }

  function ReceivedAll(ps: seq<Pack>): seq<Pack>
  {
    if ps == [] then [] else ReceivedAll(ps[..|ps| - 1]) + [Received(ps[|ps| - 1])]
  }

  /** Exactly n packs off a stream. */
  function ParseMany(s: bytes, n: nat, maxLength: int): Parsed<seq<Pack>>
  {
    if n == 0 then Ok([], s) else
    var (ps, r) :- ParseMany(s, n - 1, maxLength);
    var (p, r2) :- ParsePack(r, maxLength);
    Ok(ps + [p], r2)
  }

  /** Any list of sendable packs is read back from its stream, pack by pack, whatever follows. */
  lemma {:induction false} StreamRoundTrip(ps: seq<Pack>, rest: bytes, maxLength: int)
    requires AllSendable(ps, maxLength)
    ensures ParseMany(Stream(ps) + rest, |ps|, maxLength) == Ok(ReceivedAll(ps), rest)
  {
    if ps == [] {
      assert Stream(ps) + rest == rest;
    } else {
      var init, p := ps[..|ps| - 1], ps[|ps| - 1];
      assert p in ps;
      PackRoundTrip(p, rest, maxLength);
      var e := Encode(p).value;
      assert Stream(ps) + rest == Stream(init) + (e + rest);
      StreamRoundTrip(init, e + rest, maxLength);
    }
  }

  // ------------------------------------------------------------ a stream cut anywhere

  lemma LengthExtends(s: bytes, t: bytes, count: nat, multiplier: nat, length: nat)
    requires ReadLengthFrom(s, count, multiplier, length).Ok?
    ensures var r := ReadLengthFrom(s, count, multiplier, length);
      ReadLengthFrom(s + t, count, multiplier, length) == Ok(r.value, r.rest + t)
    decreases |s|
  {
    assert (s + t)[1..] == s[1..] + t;
    if s[0] / 128 != 0 && count + 1 < 4 {
      LengthExtends(s[1..], t, count + 1, multiplier * 128, length + s[0] % 128 * multiplier);
    }
  }

  lemma IntExtends(s: bytes, t: bytes)
    requires ReadInt(s).Ok?
    ensures ReadInt(s + t) == Ok(ReadInt(s).value, ReadInt(s).rest + t)
  {
  }

  lemma FullExtends(s: bytes, t: bytes, n: nat)
    requires ReadFull(s, n).Ok?
    ensures ReadFull(s + t, n) == Ok(ReadFull(s, n).value, ReadFull(s, n).rest + t)
  {
    assert (s + t)[..n] == s[..n] && (s + t)[n..] == s[n..] + t;
  }

  lemma PublishExtends(s: bytes, t: bytes, length: nat, qos: nat)
    requires ParsePublish(s, length, qos).Ok?
    ensures var r := ParsePublish(s, length, qos); ParsePublish(s + t, length, qos) == Ok(r.value, r.rest + t)
  {
    IntExtends(s, t);
    var n := ReadInt(s).value;
    FullExtends(ReadInt(s).rest, t, n);
    var topic, r := ReadString(s).value, ReadString(s).rest;
    var vlen := length - |topic| - 2;
    if qos > 0 {
      IntExtends(r, t);
      FullExtends(ReadInt(r).rest, t, vlen - 2);
    } else if vlen > 0 {
      FullExtends(r, t, vlen);
    }
  }

  lemma SubackExtends(s: bytes, t: bytes, length: nat)
    requires ParseSuback(s, length).Ok?
    ensures var r := ParseSuback(s, length); ParseSuback(s + t, length) == Ok(r.value, r.rest + t)
  {
    IntExtends(s, t);
    var r := ReadInt(s).rest;
    assert (r + t)[1..] == r[1..] + t;
  }

  /** More bytes behind a pack do not change what is read; SUBSCRIBE, UNSUBSCRIBE and CONNECT, which
      no server writes, are not meant. */
  lemma BodyExtends(s: bytes, t: bytes, msgType: nat, qos: nat, length: nat)
    requires msgType != CONNECT && msgType != SUBSCRIBE && msgType != UNSUBSCRIBE
    requires ParseBody(s, msgType, qos, length).Ok?
    ensures var r := ParseBody(s, msgType, qos, length);
      ParseBody(s + t, msgType, qos, length) == Ok(r.value, r.rest + t)
  {
    if msgType == PUBLISH {
      PublishExtends(s, t, length, qos);
    } else if msgType == SUBACK {
      SubackExtends(s, t, length);
    } else if IsAck(msgType) || msgType == UNSUBACK {
      IntExtends(s, t);
    } else if msgType != PINGREQ && msgType != DISCONNECT {
      FullExtends(s, t, length);
    }
  }

  lemma PackExtends(s: bytes, t: bytes, maxLength: int)
    requires ParsePack(s, maxLength).Ok?
    requires s[0] / 16 != CONNECT && s[0] / 16 != SUBSCRIBE && s[0] / 16 != UNSUBSCRIBE
    ensures var r := ParsePack(s, maxLength); ParsePack(s + t, maxLength) == Ok(r.value, r.rest + t)
  {
    assert (s + t)[1..] == s[1..] + t;
    LengthExtends(s[1..], t, 1, 1, 0);
    var l := ReadLength(s[1..]);
    BodyExtends(l.rest, t, s[0] / 16, s[0] % 8 / 2, l.value);
  }

  /** A pack that has not arrived in full is not read. */
  lemma CutPack(p: Pack, k: nat, maxLength: int)
    requires Sendable(p, maxLength) && Encode(p).Some? && k < |Encode(p).value|
    ensures ParsePack(Encode(p).value[..k], maxLength).Fail?
  {
    var e := Encode(p).value;
    HeaderRoundTrip(p);
    PackRoundTrip(p, [], maxLength);
    assert e[..k] + e[k..] == e && e + [] == e;
    if ParsePack(e[..k], maxLength).Ok? {
      PackExtends(e[..k], e[k..], maxLength);
    }
  }

  /** Packs off a stream until one is not complete, at most n. */
  function ParseUpTo(s: bytes, n: nat, maxLength: int): (seq<Pack>, bytes)
  {
    if n == 0 then ([], s) else
      var (ps, r) := ParseUpTo(s, n - 1, maxLength);
      if |ps| < n - 1 then (ps, r) else
      var p := ParsePack(r, maxLength);
      if p.Fail? then (ps, r) else (ps + [p.value], p.rest)
  }

  /** Whatever part of the stream has arrived, its reader gets a prefix of exactly the packs sent, and
      all of them once everything has arrived. */
  lemma {:induction false} CutStream(ps: seq<Pack>, s: bytes, t: bytes, maxLength: int)
    requires AllSendable(ps, maxLength) && s + t == Stream(ps)
    ensures ParseUpTo(s, |ps|, maxLength).0 <= ReceivedAll(ps)
    ensures t != [] ==> |ParseUpTo(s, |ps|, maxLength).0| < |ps|
    ensures t == [] ==> ParseUpTo(s, |ps|, maxLength) == (ReceivedAll(ps), [])
  {
    hide ParsePack, Encode, Received, Sendable;
    if ps != [] {
      var init, p := ps[..|ps| - 1], ps[|ps| - 1];
      assert p in ps;
      PackRoundTrip(p, [], maxLength);
      var e, before := Encode(p).value, Stream(init);
      assert Stream(ps) == before + e;
      assert |ReceivedAll(init)| == |init| by { ReceivedAllLength(init); }
      SplitConcat(s, t, before, e);
      if |s| < |before| {
        CutStream(init, s, before[|s|..], maxLength);
        UpToShort(s, |init|, maxLength);
      } else {
        UpToWhole(init, e[..|s| - |before|], maxLength);
        CutLast(p, |s| - |before|, maxLength);
        UpToNext(s, |init|, maxLength);
      }
    }
  }

  lemma UpToNext(s: bytes, n: nat, maxLength: int)
    requires |ParseUpTo(s, n, maxLength).0| == n
    ensures var (ps, r) := ParseUpTo(s, n, maxLength);
      var p := ParsePack(r, maxLength);
      ParseUpTo(s, n + 1, maxLength) == if p.Fail? then (ps, r) else (ps + [p.value], p.rest)
  {
  }

  lemma UpToShort(s: bytes, n: nat, maxLength: int)
    requires |ParseUpTo(s, n, maxLength).0| < n
    ensures ParseUpTo(s, n + 1, maxLength) == ParseUpTo(s, n, maxLength)
  {
  }

  lemma CutLast(p: Pack, k: nat, maxLength: int)
    requires Sendable(p, maxLength) && Encode(p).Some? && k <= |Encode(p).value|
    ensures ParsePack(Encode(p).value[..k], maxLength).Ok? ==>
      k == |Encode(p).value| && ParsePack(Encode(p).value[..k], maxLength) == Ok(Received(p), [])
    ensures k == |Encode(p).value| ==> ParsePack(Encode(p).value[..k], maxLength).Ok?
  {
    var e := Encode(p).value;
    if k < |e| {
      CutPack(p, k, maxLength);
    } else {
      PackRoundTrip(p, [], maxLength);
      assert e[..k] == e && e + [] == e;
    }
  }

  lemma SplitConcat(s: bytes, t: bytes, a: bytes, b: bytes)
    requires s + t == a + b
    ensures |s| + |t| == |a| + |b|
    ensures |s| < |a| ==> s + a[|s|..] == a
    ensures |s| >= |a| ==> s == a + b[..|s| - |a|]
  {
    var c := a + b;
    assert s == c[..|s|] && a == c[..|a|] && b == c[|a|..];
  }

  lemma {:induction false} ReceivedAllLength(ps: seq<Pack>)
    ensures |ReceivedAll(ps)| == |ps|
  {
    if ps != [] {
      ReceivedAllLength(ps[..|ps| - 1]);
    }
  }

  lemma {:induction false} UpToWhole(ps: seq<Pack>, rest: bytes, maxLength: int)
    requires AllSendable(ps, maxLength)
    ensures ParseUpTo(Stream(ps) + rest, |ps|, maxLength) == (ReceivedAll(ps), rest)
  {
    ReceivedAllLength(ps);
    if ps == [] {
      assert Stream(ps) + rest == rest;
    } else {
      var init, p := ps[..|ps| - 1], ps[|ps| - 1];
      assert p in ps;
      PackRoundTrip(p, rest, maxLength);
      var e := Encode(p).value;
      assert Stream(ps) + rest == Stream(init) + (e + rest);
      UpToWhole(init, e + rest, maxLength);
    }
  }
}
