/** Every control packet of MQTT 3.1.1, byte by byte as sections 3.1 to 3.14 lay it out, with its first
    byte spelled out: what the reader makes of it, and that the writer writes it. */
module MqttPackets {
  import opened Values
  import opened Mqtt
  import opened MqttRoundTrip
  import opened MqttStandard

  datatype ControlPacket =
    | ConnectPacket(connect: Connect)
    | ConnackPacket(flags: byte, code: byte)
    | PublishPacket(dup: nat, qos: nat, retain: nat, topic: bytes, id: nat, msg: bytes)
    | PubackPacket(id: nat)
    | PubrecPacket(id: nat)
    | PubrelPacket(id: nat)
    | PubcompPacket(id: nat)
    | SubscribePacket(id: nat, topics: seq<Topic>)
    | SubackPacket(id: nat, code: byte)
    | UnsubscribePacket(id: nat, topics: seq<Topic>)
    | UnsubackPacket(id: nat)
    | PingreqPacket
    | PingrespPacket
    | DisconnectPacket

  /** Nothing but an id follows the length. */
  predicate JustId(p: ControlPacket)
  {
    p.PubackPacket? || p.PubrecPacket? || p.PubrelPacket? || p.PubcompPacket? || p.UnsubackPacket?
  }

  /** The fields fit their room; an id at QoS 0 is none. */
  predicate Legal(p: ControlPacket)
  {
    match p
    case ConnectPacket(c) => WellFormed(c) && GoodId(c)
    case PublishPacket(dup, qos, retain, topic, id, _) =>
      dup < 2 && qos < 4 && retain < 2 && 0 < |topic| < 65536 && id < 65536 && (qos == 0 ==> id == 0)
    case SubscribePacket(id, topics) => id < 65536 && ShortNames(topics, true)
    case UnsubscribePacket(id, topics) => id < 65536 && ShortNames(topics, false)
    case PubackPacket(id) => id < 65536
    case PubrecPacket(id) => id < 65536
    case PubrelPacket(id) => id < 65536
    case PubcompPacket(id) => id < 65536
    case SubackPacket(id, _) => id < 65536
    case UnsubackPacket(id) => id < 65536
    case _ => true
  }

  function First(p: ControlPacket): byte
    requires Legal(p)
  {
    match p
    case ConnectPacket(_) => 0x10
    case ConnackPacket(_, _) => 0x20
    case PublishPacket(dup, qos, retain, _, _, _) => 0x30 + dup * 8 + qos * 2 + retain
    case PubackPacket(_) => 0x40
    case PubrecPacket(_) => 0x50
    case PubrelPacket(_) => 0x62
    case PubcompPacket(_) => 0x70
    case SubscribePacket(_, _) => 0x82
    case SubackPacket(_, _) => 0x90
    case UnsubscribePacket(_, _) => 0xA2
    case UnsubackPacket(_) => 0xB0
    case PingreqPacket => 0xC0
    case PingrespPacket => 0xD0
    case DisconnectPacket => 0xE0
  }

  /** Variable header and payload. */
  function Content(p: ControlPacket): bytes
    requires Legal(p)
  {
    match p
    case ConnectPacket(c) => ConnectBody(c)
    case ConnackPacket(flags, code) => [flags, code]
    case PublishPacket(_, qos, _, topic, id, msg) => Text(topic) + ((if qos > 0 then Two(id) else []) + msg)
    case SubscribePacket(id, topics) => Two(id) + Filters(topics, true)
    case UnsubscribePacket(id, topics) => Two(id) + Filters(topics, false)
    case SubackPacket(id, code) => Two(id) + [code]
    case PubackPacket(id) => Two(id)
    case PubrecPacket(id) => Two(id)
    case PubrelPacket(id) => Two(id)
    case PubcompPacket(id) => Two(id)
    case UnsubackPacket(id) => Two(id)
    case _ => []
  }

  ghost predicate Fits(p: ControlPacket, maxLength: int)
  {
    Legal(p) && |Content(p)| <= 2097151 && |Content(p)| <= maxLength
  }

  function Layout(p: ControlPacket): bytes
    requires Legal(p) && |Content(p)| < 268435456
  {
    Packet(First(p), Content(p))
  }

  /** The packet as it is read: type number, flags, length and fields. The body of a CONNACK is skipped. */
  function AsRead(p: ControlPacket): Pack
    requires Legal(p)
  {
    var n := |Content(p)|;
    match p
    case ConnectPacket(c) => Pack(1, 0, 0, 0, n, ConnectVar(c))
    case ConnackPacket(_, _) => Pack(2, 0, 0, 0, n, Nothing)
    case PublishPacket(dup, qos, retain, topic, id, msg) => Pack(3, dup, qos, retain, n, PublishVar(topic, id, msg))
    case PubackPacket(id) => Pack(4, 0, 0, 0, n, AckVar(id))
    case PubrecPacket(id) => Pack(5, 0, 0, 0, n, AckVar(id))
    case PubrelPacket(id) => Pack(6, 0, 1, 0, n, AckVar(id))
    case PubcompPacket(id) => Pack(7, 0, 0, 0, n, AckVar(id))
    case SubscribePacket(id, topics) => Pack(8, 0, 1, 0, n, SubscribeVar(id, topics))
    case SubackPacket(id, code) => Pack(9, 0, 0, 0, n, SubackVar(id, code))
    case UnsubscribePacket(id, topics) => Pack(10, 0, 1, 0, n, UnsubscribeVar(id, topics))
    case UnsubackPacket(id) => Pack(11, 0, 0, 0, n, UnsubackVar(id))
    case PingreqPacket => Pack(12, 0, 0, 0, n, Nothing)
    case PingrespPacket => Pack(13, 0, 0, 0, n, Nothing)
    case DisconnectPacket => Pack(14, 0, 0, 0, n, Nothing)
  }

  // ------------------------------------------------------------ reading

  lemma ShortContent(p: ControlPacket, rest: bytes)
    requires Legal(p)
    requires !p.ConnectPacket? && !p.PublishPacket? && !p.SubscribePacket? && !p.UnsubscribePacket?
    ensures ParseBody(Content(p) + rest, AsRead(p).msgType, AsRead(p).qos, |Content(p)|) == Ok(AsRead(p).variable, rest)
  {
    if p.ConnackPacket? || p.PingrespPacket? {
      FullRoundTrip(Content(p), rest);
    } else if p.SubackPacket? {
      TwoRead(p.id, rest);
      SubackPayload(p.id, p.code, rest);
    } else if JustId(p) {
      TwoRead(p.id, rest);
    } else {
      assert Content(p) + rest == rest;
    }
  }

  lemma PublishContent(p: ControlPacket, rest: bytes)
    requires Legal(p) && p.PublishPacket?
    ensures ParseBody(Content(p) + rest, 3, p.qos, |Content(p)|) == Ok(AsRead(p).variable, rest)
  {
    var id := if p.qos > 0 then Two(p.id) else [];
    PublishFields(p.topic, p.id, p.msg, p.qos, rest);
    FourParts(Text(p.topic), id, p.msg, rest);
    hide ParsePublish, Text, Two;
  }

  lemma PublishFields(topic: bytes, id: nat, msg: bytes, qos: nat, rest: bytes)
    requires 0 < |topic| < 65536 && id < 65536 && (qos == 0 ==> id == 0)
    ensures
      var two := if qos > 0 then Two(id) else [];
      && |Text(topic) + (two + msg)| == (if qos > 0 then 4 else 2) + |topic| + |msg|
      && ParsePublish(Text(topic) + (two + (msg + rest)), (if qos > 0 then 4 else 2) + |topic| + |msg|, qos) ==
           Ok(PublishVar(topic, id, msg), rest)
  {
    TextRead(topic, rest);
    TwoRead(id, rest);
    hide ParsePublish;
    if qos > 0 {
      PublishWithId(topic, id, msg, qos, rest);
    } else {
      assert [] + (msg + rest) == msg + rest;
      PublishWithoutId(topic, msg, rest);
    }
  }

  lemma FourParts(a: bytes, b: bytes, c: bytes, d: bytes)
    ensures a + (b + c) + d == a + (b + (c + d))
  {
  }

  lemma ContentParses(p: ControlPacket, rest: bytes)
    requires Legal(p)
    ensures ParseBody(Content(p) + rest, AsRead(p).msgType, AsRead(p).qos, |Content(p)|) == Ok(AsRead(p).variable, rest)
  {
    hide ParseConnect, ParseTopics, ConnectBody, Filters;
    match p
    case ConnectPacket(c) => ConnectBodyRead(c, rest);
    case PublishPacket(_, _, _, _, _, _) => PublishContent(p, rest);
    case SubscribePacket(id, topics) => TopicsParse(id, topics, rest, true);
    case UnsubscribePacket(id, topics) => TopicsParse(id, topics, rest, false);
    case _ => ShortContent(p, rest);
  }

  /** Every control packet of the standard within the length bounds is read field by field, and nothing
      after it is touched. */
  lemma LayoutParses(p: ControlPacket, rest: bytes, maxLength: int)
    requires Fits(p, maxLength)
    ensures ParsePack(Layout(p) + rest, maxLength) == Ok(AsRead(p), rest)
  {
    ContentParses(p, rest);
    hide ParseBody, Content;
    var r := AsRead(p);
    PacketParses(First(p), r.msgType, r.dup, r.qos, r.retain, Content(p), rest, maxLength);
  }

  // ------------------------------------------------------------ writing

  /** The packets a server writes. */
  predicate FromServer(p: ControlPacket)
  {
    match p
    case ConnectPacket(_) => false
    case SubscribePacket(_, _) => false
    case UnsubscribePacket(_, _) => false
    case PingreqPacket => false
    case DisconnectPacket => false
    case _ => true
  }

  /** The pack a server hands to the writer for it. */
  function AsSent(p: ControlPacket): Pack
    requires Legal(p)
  {
    match p
    case ConnackPacket(flags, code) => Pack(2, 0, 0, 0, 0, ConnackVar(flags, code))
    case _ => AsRead(p)
  }

  lemma SentContent(p: ControlPacket)
    requires Legal(p) && FromServer(p)
    ensures ServerPack(AsSent(p)) && BodyLength(AsSent(p)) == |Content(p)| && Payload(AsSent(p)) == Content(p)
  {
    if p.PublishPacket? {
      TextRead(p.topic, []);
      TwoRead(p.id, []);
      hide Text, Two, EncodeInt, EncodeString;
    } else if p.SubackPacket? || JustId(p) {
      TwoRead(p.id, []);
      hide Two, EncodeInt;
    }
  }

  lemma SentHeader(p: ControlPacket)
    requires Legal(p) && FromServer(p)
    ensures
      var s := AsSent(p);
      s.msgType < 16 && s.dup < 2 && s.qos < 4 && First(p) == s.msgType * 16 + s.dup * 8 + s.qos * 2 + s.retain
  {
    hide Content;
  }

  /** The writer writes every such packet as the standard has it, without a retain bit. */
  lemma LayoutWritten(p: ControlPacket)
    requires Legal(p) && FromServer(p) && |Content(p)| < 268435456
    requires p.PublishPacket? ==> p.retain == 0
    ensures Encode(AsSent(p)) == Some(Layout(p))
  {
    SentContent(p);
    SentHeader(p);
    assert AsSent(p).retain == 0;
    hide Content, First, AsSent, ServerPack, BodyLength, Payload, Encode, FixedHeader;
    LengthIs(|Content(p)|);
    EncodeIs(AsSent(p));
    HeaderFields(AsSent(p));
  }

  /** The retain bit is never written. */
  lemma RetainLost(p: ControlPacket)
    requires Legal(p) && p.PublishPacket? && p.retain == 1 && |Content(p)| < 268435456
    ensures Legal(p.(retain := 0)) && |Content(p.(retain := 0))| == |Content(p)|
    ensures Encode(AsSent(p)) == Some(Layout(p.(retain := 0))) != Some(Layout(p))
  {
    var q := p.(retain := 0);
    assert Content(q) == Content(p) && First(q) != First(p);
    LayoutWritten(q);
    SentContent(p);
    SentContent(q);
    RetainUnseen(AsSent(p), AsSent(q));
    hide Content;
    assert Layout(p)[0] == First(p) && Layout(q)[0] == First(q);
  }

  lemma RetainUnseen(p: Pack, q: Pack)
    requires q == p.(retain := q.retain, length := q.length)
    ensures Encode(p) == Encode(q)
  {
  }

  // ------------------------------------------------------------ what the writer gets wrong

  lemma {:induction false} FiltersAre(ts: seq<Topic>, withQos: bool)
    requires ShortNames(ts, withQos)
    ensures EncodeTopics(ts, withQos) == Filters(ts, withQos)
  {
    if ts != [] {
      assert ts[0] in ts;
      TwoRead(|ts[0].name|, []);
      FiltersAre(ts[1..], withQos);
    }
  }

  lemma EncodeRequest(p: Pack, mid: nat, ts: seq<Topic>)
    requires p.msgType == 8 || p.msgType == 10
    requires p.variable == if p.msgType == 8 then SubscribeVar(mid, ts) else UnsubscribeVar(mid, ts)
    requires |EncodeTopics(ts, p.msgType == 8)| < 268435456
    ensures
      var b := EncodeTopics(ts, p.msgType == 8);
      Encode(p) == Some([FixedHeader(p)] + ([EncodeLength(|b|)[0]] + EncodeInt(mid) + b))
  {
    hide EncodeTopics, FixedHeader, EncodeInt, EncodeLength;
  }

  /** A SUBSCRIBE or UNSUBSCRIBE is written with the first byte of a length that misses the id. */
  lemma RequestsWritten(p: ControlPacket)
    requires Legal(p) && (p.SubscribePacket? || p.UnsubscribePacket?) && |Content(p)| < 268435456
    ensures
      var filters := Filters(p.topics, p.SubscribePacket?);
      Encode(AsRead(p)) == Some([First(p)] + ([LengthField(|filters|)[0]] + Two(p.id) + filters))
  {
    var ts, withQos := p.topics, p.SubscribePacket?;
    FiltersAre(ts, withQos);
    TwoRead(p.id, []);
    RequestHeader(p);
    hide Filters, EncodeTopics, FixedHeader, Two, EncodeInt, Encode, LengthField, EncodeLength, Content, First;
    LengthIs(|Filters(ts, withQos)|);
    EncodeRequest(AsRead(p), p.id, ts);
  }

  lemma RequestHeader(p: ControlPacket)
    requires Legal(p) && (p.SubscribePacket? || p.UnsubscribePacket?)
    ensures FixedHeader(AsRead(p)) == First(p)
    ensures |Filters(p.topics, p.SubscribePacket?)| <= |Content(p)|
    ensures AsRead(p).variable ==
      if p.SubscribePacket? then SubscribeVar(p.id, p.topics) else UnsubscribeVar(p.id, p.topics)
    ensures AsRead(p).msgType == if p.SubscribePacket? then 8 else 10
  {
    hide FixedHeader, Filters;
    HeaderFields(AsRead(p));
  }

  /** So it is never the packet of the standard. */
  lemma RequestsMiswritten(p: ControlPacket)
    requires Legal(p) && (p.SubscribePacket? || p.UnsubscribePacket?) && |Content(p)| < 268435456
    ensures Encode(AsRead(p)) != Some(Layout(p))
  {
    RequestsWritten(p);
    hide Encode, AsRead;
    var filters := Filters(p.topics, p.SubscribePacket?);
    assert Layout(p)[1] == LengthField(|filters| + 2)[0];
    assert ([First(p)] + ([LengthField(|filters|)[0]] + Two(p.id) + filters))[1] == LengthField(|filters|)[0];
  }
}
