/** The server's side of a conversation, byte by byte: what it writes back for the packets of the standard,
    and which of them it hands on. */
module MqttExchange {
  import opened Values
  import opened Mqtt
  import opened MqttRoundTrip
  import opened MqttStandard
  import opened MqttPackets
  import opened MqttIO
  import opened MqttClient

  function SubReplies(id: nat, ts: seq<Topic>): bytes
    requires id < 65536
  {
    if ts == [] then [] else
      SubReplies(id, ts[..|ts| - 1]) + if ts[|ts| - 1].qos == 2 then [0x90, 3, id / 256, id % 256, 0] else []
  }

  /** The bytes that answer a packet. */
  function Reply(p: ControlPacket): bytes
    requires Legal(p)
  {
    match p
    case ConnectPacket(_) => [0x20, 2, 0, 0]
    case PublishPacket(_, qos, _, _, id, _) =>
      if qos == 1 then [0x40, 2, id / 256, id % 256] else if qos == 2 then [0x50, 2, id / 256, id % 256] else []
    case PubrecPacket(id) => [0x62, 2, id / 256, id % 256]
    case PubrelPacket(id) => [0x70, 2, id / 256, id % 256]
    case SubscribePacket(id, topics) => SubReplies(id, topics)
    case UnsubscribePacket(id, _) => [0xB0, 2, id / 256, id % 256]
    case PingreqPacket => [0xD0, 0]
    case _ => []
  }

  /** The packets handed on to the layer above. */
  predicate GoesUp(p: ControlPacket)
  {
    p.PublishPacket? || p.SubscribePacket? || p.UnsubscribePacket? || p.PingreqPacket?
  }

  // ------------------------------------------------------------ one answer

  lemma {:induction false} StreamConcat(a: seq<Pack>, b: seq<Pack>)
    ensures Stream(a + b) == Stream(a) + Stream(b)
  {
    hide Stream, Encoded;
    if b == [] {
      assert a + b == a && Stream([]) == [] by { NothingStreamed(); }
    } else {
      var init, p := b[..|b| - 1], b[|b| - 1];
      StreamConcat(a, init);
      StreamAppend(a + init, p);
      StreamAppend(init, p);
      Assoc(Stream(a), Stream(init), Encoded(p));
      assert a + b == (a + init) + [p] && b == init + [p];
    }
  }

  lemma StreamOne(p: Pack)
    requires Encode(p).Some?
    ensures Stream([p]) == Encode(p).value
  {
    assert [p][..0] == [];
  }

  lemma SmallPack(p: Pack, first: byte, payload: bytes)
    requires ServerPack(p) && p.msgType != PUBLISH
    requires Payload(p) == payload && BodyLength(p) == |payload| < 128
    requires first == p.msgType * 16 + p.dup * 8 + p.qos * 2
    ensures Encode(p) == Some([first] + ([|payload|] + payload))
  {
    hide Payload, BodyLength, FixedHeader, Encode;
    EncodeIs(p);
    SmallLength(|payload|);
    HeaderFields(p);
  }

  /** An acknowledgement is two bytes and the id. */
  lemma AckBytes(t: nat, qos: nat, id: nat)
    requires 4 <= t <= 7 && qos < 2 && id < 65536
    ensures Encode(Blank(t, qos, 0, AckVar(id))) == Some([t * 16 + qos * 2, 2, id / 256, id % 256])
  {
    hide Encode;
    SmallPack(Blank(t, qos, 0, AckVar(id)), t * 16 + qos * 2, [id / 256, id % 256]);
    assert [t * 16 + qos * 2] + ([2] + [id / 256, id % 256]) == [t * 16 + qos * 2, 2, id / 256, id % 256];
  }

  lemma ConnackBytes()
    ensures Encode(Blank(2, 0, 0, ConnackVar(0, 0))) == Some([0x20, 2, 0, 0])
  {
    hide Encode;
    SmallPack(Blank(2, 0, 0, ConnackVar(0, 0)), 0x20, [0, 0]);
    assert [0x20] + ([2] + [0, 0]) == [0x20, 2, 0, 0];
  }

  lemma SubackBytes(id: nat)
    requires id < 65536
    ensures Encode(Blank(9, 0, 0, SubackVar(id, 0))) == Some([0x90, 3, id / 256, id % 256, 0])
  {
    hide Encode;
    SmallPack(Blank(9, 0, 0, SubackVar(id, 0)), 0x90, [id / 256, id % 256, 0]);
    assert [0x90] + ([3] + [id / 256, id % 256, 0]) == [0x90, 3, id / 256, id % 256, 0];
  }

  lemma UnsubackBytes(id: nat)
    requires id < 65536
    ensures Encode(Blank(11, 0, 0, UnsubackVar(id))) == Some([0xB0, 2, id / 256, id % 256])
  {
    hide Encode;
    SmallPack(Blank(11, 0, 0, UnsubackVar(id)), 0xB0, [id / 256, id % 256]);
    assert [0xB0] + ([2] + [id / 256, id % 256]) == [0xB0, 2, id / 256, id % 256];
  }

  lemma PingrespBytes()
    ensures Encode(Blank(13, 0, 0, Nothing)) == Some([0xD0, 0])
  {
    hide Encode;
    SmallPack(Blank(13, 0, 0, Nothing), 0xD0, []);
    assert [0xD0] + ([0] + []) == [0xD0, 0];
  }

  lemma {:induction false} SubAckBytes(id: nat, ts: seq<Topic>)
    requires id < 65536
    ensures Stream(SubAcks(id, ts)) == SubReplies(id, ts)
  {
    hide Encode;
    if ts != [] {
      var init, last := ts[..|ts| - 1], Blank(9, 0, 0, SubackVar(id, 0));
      SubAckBytes(id, init);
      SubackBytes(id);
      StreamOne(last);
      StreamConcat(SubAcks(id, init), [last]);
      hide Stream;
      assert SubAcks(id, ts) == SubAcks(id, init) + if ts[|ts| - 1].qos == 2 then [last] else [];
      assert SubAcks(id, init) + [] == SubAcks(id, init);
    }
  }

  lemma AnswerBytes(p: ControlPacket)
    requires Legal(p)
    ensures Stream(Answers(AsRead(p))) == Reply(p)
  {
    hide Encode, Content, Stream;
    match p
    case ConnectPacket(_) =>
      ConnackBytes();
      StreamOne(Blank(2, 0, 0, ConnackVar(0, 0)));
    case PublishPacket(_, qos, _, _, id, _) =>
      AckBytes(4, 0, id);
      AckBytes(5, 0, id);
      StreamOne(Blank(4, 0, 0, AckVar(id)));
      StreamOne(Blank(5, 0, 0, AckVar(id)));
      NothingStreamed();
    case PubrecPacket(id) =>
      AckBytes(6, 1, id);
      StreamOne(Blank(6, 1, 0, AckVar(id)));
    case PubrelPacket(id) =>
      AckBytes(7, 0, id);
      StreamOne(Blank(7, 0, 0, AckVar(id)));
    case SubscribePacket(id, topics) =>
      SubAckBytes(id, topics);
    case UnsubscribePacket(id, _) =>
      UnsubackBytes(id);
      StreamOne(Blank(11, 0, 0, UnsubackVar(id)));
    case PingreqPacket =>
      PingrespBytes();
      StreamOne(Blank(13, 0, 0, Nothing));
    case _ =>
      NothingStreamed();
  }

  /** A PINGREQ with its second highest flag set gets a PINGRESP with it set. */
  lemma PingEcho(dup: nat, qos: nat, retain: nat, n: nat)
    requires dup < 2
    ensures Stream(Answers(Pack(12, dup, qos, retain, n, Nothing))) == [0xD0 + 8 * dup, 0]
  {
    hide Encode, Stream;
    SmallPack(Blank(13, 0, dup, Nothing), 0xD0 + 8 * dup, []);
    assert [0xD0 + 8 * dup] + ([0] + []) == [0xD0 + 8 * dup, 0];
    StreamOne(Blank(13, 0, dup, Nothing));
  }

  lemma NothingStreamed()
    ensures Stream([]) == []
  {
  }

  /** A message of the server goes out as a QoS 0 PUBLISH of the standard; its id is not written. */
  lemma MessageBytes(topic: bytes, id: nat, msg: bytes)
    requires 0 < |topic| < 65536 && id < 65536 && 2 + |topic| + |msg| < 268435456
    ensures Encode(MessagePack(topic, id, msg)) == Some(Layout(PublishPacket(0, 0, 0, topic, 0, msg)))
  {
    var p := PublishPacket(0, 0, 0, topic, 0, msg);
    assert Content(p) == Text(topic) + msg;
    LayoutWritten(p);
    IdUnseen(topic, id, 0, msg, 0, |Content(p)|);
  }

  lemma IdUnseen(topic: bytes, id: nat, other: nat, msg: bytes, n: nat, m: nat)
    ensures Encode(Pack(3, 0, 0, 0, n, PublishVar(topic, id, msg))) == Encode(Pack(3, 0, 0, 0, m, PublishVar(topic, other, msg)))
  {
  }

  // ------------------------------------------------------------ whole conversations

  ghost predicate AllFit(ps: seq<ControlPacket>, maxLength: int)
  {
    forall p :: p in ps ==> Fits(p, maxLength)
  }

  function LayoutAll(ps: seq<ControlPacket>): bytes
    requires forall p :: p in ps ==> Legal(p) && |Content(p)| < 268435456
  {
    if ps == [] then [] else Layout(ps[0]) + LayoutAll(ps[1..])
  }

  function ReplyAll(ps: seq<ControlPacket>): bytes
    requires forall p :: p in ps ==> Legal(p)
  {
    if ps == [] then [] else Reply(ps[0]) + ReplyAll(ps[1..])
  }

  function Upstairs(ps: seq<ControlPacket>): seq<Pack>
    requires forall p :: p in ps ==> Legal(p)
  {
    if ps == [] then [] else (if GoesUp(ps[0]) then [AsRead(ps[0])] else []) + Upstairs(ps[1..])
  }

  lemma FirstOfStream(p: ControlPacket, rest: bytes, maxLength: int)
    requires Fits(p, maxLength)
    ensures ParseAll(Layout(p) + rest, maxLength) == [AsRead(p)] + ParseAll(rest, maxLength)
  {
    LayoutParses(p, rest, maxLength);
    hide ParsePack, AsRead, Layout;
  }

  lemma {:induction false} ConversationIs(ps: seq<ControlPacket>, maxLength: int)
    requires AllFit(ps, maxLength)
    ensures Stream(AnswersAll(ParseAll(LayoutAll(ps), maxLength))) == ReplyAll(ps)
    ensures ForwardsAll(ParseAll(LayoutAll(ps), maxLength)) == Upstairs(ps)
  {
    if ps != [] {
      hide Answers, Content, Stream, Layout, Forwards, AsRead, Reply, ParsePack;
      var p, more := ps[0], ps[1..];
      assert p in ps;
      ConversationIs(more, maxLength);
      FirstOfStream(p, LayoutAll(more), maxLength);
      AnswerBytes(p);
      UpOrNot(p);
      var rest := ParseAll(LayoutAll(more), maxLength);
      assert ([AsRead(p)] + rest)[1..] == rest;
      StreamConcat(Answers(AsRead(p)), AnswersAll(rest));
    }
  }

  lemma UpOrNot(p: ControlPacket)
    requires Legal(p)
    ensures Forwards(AsRead(p)) == if GoesUp(p) then [AsRead(p)] else []
  {
    hide Content;
  }

  /** A client's side of a connection: whatever list of packets of the standard it sends, the server's loop
      reads it to the end, writes exactly their replies in order, and hands on exactly those that go up. */
  method Converse(ps: seq<ControlPacket>, maxLength: int) returns (written: seq<Pack>, up: seq<Pack>)
    requires AllFit(ps, maxLength)
    ensures Stream(written) == ReplyAll(ps) && up == Upstairs(ps)
  {
    hide Stream, ParseAll, Content, AnswersAll, ForwardsAll;
    var client := new Client();
    var reader := new Reader(LayoutAll(ps));
    client.ReadPackInLoop(reader, maxLength);
    ConversationIs(ps, maxLength);
    written, up := client.written, client.forwarded;
    assert written == AnswersAll(ParseAll(LayoutAll(ps), maxLength));
    assert up == ForwardsAll(ParseAll(LayoutAll(ps), maxLength));
  }
}
