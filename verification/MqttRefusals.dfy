/** What the reader refuses, and with which error; what it skips; what it makes of topic lists that end too
    early; and which packs the writer cannot encode. */
module MqttRefusals {
  import opened Values
  import opened Mqtt
  import opened MqttRoundTrip
  import opened MqttStandard

  /** A packet whose first byte and content are given goes to the reader of its type, the upper four bits. */
  lemma ByType(first: byte, body: bytes, rest: bytes, maxLength: int)
    requires |body| <= 2097151
    ensures ParsePack(Packet(first, body) + rest, maxLength) ==
      if |body| > maxLength then Fail(TooLong) else
      match ParseBody(body + rest, first / 16, first % 8 / 2, |body|)
      case Ok(v, r) => Ok(Pack(first / 16, first % 16 / 8, first % 8 / 2, first % 2, |body|, v), r)
      case Fail(e) => Fail(e)
  {
    PacketParses(first, first / 16, first % 16 / 8, first % 8 / 2, first % 2, body, rest, maxLength);
  }

  /** A length above the bound is refused before anything else is looked at. */
  lemma TooLongRefused(first: byte, body: bytes, rest: bytes, maxLength: int)
    requires maxLength < |body| <= 2097151
    ensures ParsePack(Packet(first, body) + rest, maxLength) == Fail(TooLong)
  {
    ByType(first, body, rest, maxLength);
    hide ParseBody, ParsePack;
  }

  /** PUBACK, PUBREC, PUBREL, PUBCOMP and UNSUBACK are read if and only if they announce two bytes, and
      SUBACK if and only if it announces three. */
  lemma AckReadIff(first: byte, body: bytes, rest: bytes, maxLength: int)
    requires first / 16 in {4, 5, 6, 7, 9, 11} && |body| <= 2097151 && |body| <= maxLength
    ensures
      var r := ParsePack(Packet(first, body) + rest, maxLength);
      if |body| == (if first / 16 == 9 then 3 else 2) then r.Ok? && r.rest == rest else r == Fail(WrongLength)
  {
    ByType(first, body, rest, maxLength);
    hide ParsePack;
    if |body| == 2 && first / 16 != 9 {
      assert (body + rest)[2..] == rest;
    } else if |body| == 3 && first / 16 == 9 {
      assert (body + rest)[2..][1..] == rest;
    }
  }

  /** A PUBLISH without a topic is refused, and one above QoS 0 whose length has no room for an id. */
  lemma PublishRefused(first: byte, topic: bytes, more: bytes, rest: bytes, maxLength: int)
    requires first / 16 == 3 && Short(topic)
    requires |Text(topic) + more| <= 2097151 && |Text(topic) + more| <= maxLength
    requires topic == [] || (first % 8 / 2 > 0 && |more| < 2)
    ensures ParsePack(Packet(first, Text(topic) + more) + rest, maxLength) == Fail(LengthError)
  {
    ByType(first, Text(topic) + more, rest, maxLength);
    Assoc(Text(topic), more, rest);
    TextRead(topic, more + rest);
    hide ParsePack;
  }

  /** A PUBLISH at QoS 0 takes what its length leaves after the topic as the message, whatever QoS bytes a
      sender may have meant; a topic longer than the length leaves no message. */
  lemma PublishAtZero(first: byte, topic: bytes, n: nat, s: bytes)
    requires first / 16 == 3 && first % 8 / 2 == 0 && 0 < |topic| < 65536
    ensures ParseBody(Text(topic) + s, 3, 0, n) ==
      if n <= 2 + |topic| then Ok(PublishVar(topic, 0, []), s)
      else if |s| < n - 2 - |topic| then Fail(Eof)
      else Ok(PublishVar(topic, 0, s[..n - 2 - |topic|]), s[n - 2 - |topic|..])
  {
    TextRead(topic, s);
  }

  /** A CONNECT is out of range if its protocol name leaves less than four bytes of the length. */
  lemma ConnectOutOfRange(protocol: bytes, s: bytes, n: nat)
    requires Short(protocol) && |protocol| > n - 4
    ensures ParseBody(Text(protocol) + s, 1, 0, n) == Fail(OutOfRange)
  {
    TextRead(protocol, s);
  }

  /** A CONNECT whose announced length is not that of its fields: how far the count reaches decides which
      fields are read, and where it ends inside one the packet is refused. */
  lemma ConnectMiscounted(c: Connect, n: nat, rest: bytes)
    requires WellFormed(c) && GoodId(c) && |c.protocol| <= n - 4
    ensures ParseConnect(ConnectBody(c) + rest, n) == Counted(c, n - 6 - |c.protocol| - |c.id|, rest)
  {
    hide ParseConnect, ParseConnectTail, Counted, ConnectBody, ConnectTail;
    var bare := c.(willTopic := None, willMsg := None, userName := None, password := None);
    ConnectFromTail(c, bare, n, rest);
    TailCounts(c, bare, rest, n - 2 - |c.protocol| - 4 - |c.id|);
  }

  /** Types without a reader of their own lose their content; PINGREQ and DISCONNECT leave it in the stream. */
  lemma OtherTypes(first: byte, body: bytes, rest: bytes, maxLength: int)
    requires first / 16 in {0, 2, 12, 13, 14, 15} && |body| <= 2097151 && |body| <= maxLength
    ensures ParsePack(Packet(first, body) + rest, maxLength) ==
      Ok(Pack(first / 16, first % 16 / 8, first % 8 / 2, first % 2, |body|, Nothing),
         if first / 16 == 12 || first / 16 == 14 then body + rest else rest)
  {
    ByType(first, body, rest, maxLength);
    FullRoundTrip(body, rest);
    hide ParsePack;
  }

  // ------------------------------------------------------------ topic lists that end too early

  /** Without QoS a name cut by the end of the stream is padded with zeros and ends the list; with QoS it is
      lost with the list's end. */
  lemma TopicsCut(n: nat, part: bytes, left: int)
    requires n < 65536 && |part| < n && left > 3
    ensures ReadTopics(Two(n) + part, left, false) == ([Topic(part + Zeros(n - |part|), 0)], [])
    ensures ReadTopics(Two(n) + part, left, true) == ([], [])
  {
    var s := Two(n) + part;
    var name := part + Zeros(n - |part|);
    assert s[2..] == part && Word(s[0], s[1]) == n == |name|;
    assert NameOf(s[2..], n) == name && After(s[2..], n) == [];
    hide ReadTopics, NameOf, After, Word, Two;
    TopicsEnd(s, left, true);
    TopicStep(s, left, false, name, []);
    NoMoreTopics(left - 2 - n);
    assert [Topic(name, 0)] + [] == [Topic(name, 0)];
  }

  /** A stream that ends before or inside a name's length just ends the list. */
  lemma NoMoreTopics(left: int)
    ensures forall withQos :: ReadTopics([], left, withQos) == ([], [])
    ensures left > 3 ==> forall b: byte, withQos :: ReadTopics([b], left, withQos) == ([], [])
  {
  }

  // ------------------------------------------------------------ what cannot be written

  /** The kind of variable part each type is written from; the others are written from none. */
  predicate HasKind(p: Pack)
  {
    && (p.msgType == 2 ==> p.variable.ConnackVar?)
    && (p.msgType == 3 ==> p.variable.PublishVar?)
    && (4 <= p.msgType <= 7 ==> p.variable.AckVar?)
    && (p.msgType == 8 ==> p.variable.SubscribeVar?)
    && (p.msgType == 9 ==> p.variable.SubackVar?)
    && (p.msgType == 10 ==> p.variable.UnsubscribeVar?)
    && (p.msgType == 11 ==> p.variable.UnsubackVar?)
  }

  /** The length that is to be written before a topic. */
  function Announced(p: Pack): nat
    requires HasKind(p)
  {
    if p.msgType == 3 then (if p.qos > 0 then 4 else 2) + |p.variable.topic| + |p.variable.msg|
    else if p.msgType == 8 then TopicsLength(p.variable.topics, 3)
    else if p.msgType == 10 then TopicsLength(p.variable.topics, 2)
    else 0
  }

  function TopicsLength(ts: seq<Topic>, extra: nat): nat
  {
    if ts == [] then 0 else |ts[0].name| + extra + TopicsLength(ts[1..], extra)
  }

  lemma {:induction false} TopicsLengthIs(ts: seq<Topic>, withQos: bool)
    ensures |EncodeTopics(ts, withQos)| == TopicsLength(ts, if withQos then 3 else 2)
  {
    if ts != [] {
      TopicsLengthIs(ts[1..], withQos);
    }
  }

  /** A pack cannot be encoded, and makes the writer panic, if and only if its variable part is not of its
      type's kind or its length needs a fifth byte. */
  lemma PanicsIff(p: Pack)
    ensures Encode(p).None? <==> !HasKind(p) || Announced(p) >= 268435456
  {
    hide EncodeTopics, EncodeString, EncodeInt, EncodeLength, FixedHeader;
    if p.msgType == 8 && p.variable.SubscribeVar? {
      TopicsLengthIs(p.variable.topics, true);
    } else if p.msgType == 10 && p.variable.UnsubscribeVar? {
      TopicsLengthIs(p.variable.topics, false);
    }
  }

  /** Types the server has no body for are written as their first byte alone, without a length. */
  lemma BareTypes(p: Pack)
    requires p.msgType in {0, 1, 12, 14, 15}
    ensures Encode(p) == Some([FixedHeader(p)])
  {
    assert [FixedHeader(p)] + [] == [FixedHeader(p)];
  }
}
