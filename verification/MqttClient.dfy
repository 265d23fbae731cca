/** The server's side of one connection, gate/base/mqtt/mqtt_client_server.go: the answers to received
    packs and the ids of the messages it sends. */
module MqttClient {
  import opened Values
  import opened Mqtt
  import opened MqttRoundTrip
  import opened MqttIO

  // ------------------------------------------------------------ answers

  function Blank(msgType: nat, qos: nat, dup: nat, v: Variable): Pack
  {
    Pack(msgType, dup, qos, 0, 0, v)
  }

  /** A message of the server's own. */
  function MessagePack(topic: bytes, mid: nat, msg: bytes): Pack
  {
    Blank(PUBLISH, 0, 0, PublishVar(topic, mid, msg))
  }

  function SubAcks(mid: nat, ts: seq<Topic>): seq<Pack>
  {
    if ts == [] then [] else
      SubAcks(mid, ts[..|ts| - 1]) + if ts[|ts| - 1].qos == 2 then [Blank(SUBACK, 0, 0, SubackVar(mid, 0))] else []
  }

  /** What is written back for a pack. */
  function Answers(p: Pack): seq<Pack>
  {
    match p.variable
    case ConnectVar(_) => [Blank(CONNACK, 0, 0, ConnackVar(0, 0))]
    case PublishVar(_, mid, _) =>
      if p.qos == 1 then [Blank(PUBACK, 0, 0, AckVar(mid))]
      else if p.qos == 2 then [Blank(PUBREC, 0, 0, AckVar(mid))]
      else []
    case AckVar(mid) =>
      if p.msgType == PUBREC then [Blank(PUBREL, 1, 0, AckVar(mid))]
      else if p.msgType == PUBREL then [Blank(PUBCOMP, 0, 0, AckVar(mid))]
      else []
    case SubscribeVar(mid, topics) => SubAcks(mid, topics)
    case UnsubscribeVar(mid, _) => [Blank(UNSUBACK, 0, 0, UnsubackVar(mid))]
    case Nothing => if p.msgType == PINGREQ then [Blank(PINGRESP, 0, p.dup, Nothing)] else []
    case _ => []
  }

  /** What the reader gives each type. */
  ghost predicate Shaped(p: Pack)
  {
    && p.dup < 2 && p.qos < 4
    && match p.variable
       case ConnectVar(_) => p.msgType == CONNECT
       case PublishVar(_, mid, _) => p.msgType == PUBLISH && mid < 65536
       case AckVar(mid) => IsAck(p.msgType) && mid < 65536
       case SubscribeVar(mid, _) => p.msgType == SUBSCRIBE && mid < 65536
       case SubackVar(mid, _) => p.msgType == SUBACK && mid < 65536
       case UnsubscribeVar(mid, _) => p.msgType == UNSUBSCRIBE && mid < 65536
       case UnsubackVar(mid) => p.msgType == UNSUBACK && mid < 65536
       case ConnackVar(_, _) => false
       case Nothing => p.msgType !in {CONNECT, PUBLISH, PUBACK, PUBREC, PUBREL, PUBCOMP, SUBSCRIBE, SUBACK, UNSUBSCRIBE, UNSUBACK}
  }

  lemma BodyShaped(s: bytes, t: nat, dup: nat, qos: nat, retain: nat, length: nat)
    requires dup < 2 && qos < 4 && ParseBody(s, t, qos, length).Ok?
    ensures Shaped(Pack(t, dup, qos, retain, length, ParseBody(s, t, qos, length).value))
  {
    hide ParseConnect, ReadTopics, ReadString;
  }

  lemma ReadIsShaped(s: bytes, maxLength: int)
    requires ParsePack(s, maxLength).Ok?
    ensures Shaped(ParsePack(s, maxLength).value) && |ParsePack(s, maxLength).rest| < |s|
  {
    hide ParseBody;
    var l := ReadLength(s[1..]);
    BodyShaped(l.rest, s[0] / 16, s[0] % 16 / 8, s[0] % 8 / 2, s[0] % 2, l.value);
    LengthConsumes(s[1..], 1, 1, 0);
    BodyConsumes(l.rest, s[0] / 16, s[0] % 8 / 2, l.value);
  }

  lemma LengthConsumes(s: bytes, count: nat, multiplier: nat, length: nat)
    requires ReadLengthFrom(s, count, multiplier, length).Ok?
    ensures |ReadLengthFrom(s, count, multiplier, length).rest| < |s|
    decreases |s|
  {
    if s[0] / 128 != 0 && count + 1 < 4 {
      LengthConsumes(s[1..], count + 1, multiplier * 128, length + s[0] % 128 * multiplier);
    }
  }

  lemma {:induction false} TopicsConsume(s: bytes, left: int, withQos: bool)
    ensures |ReadTopics(s, left, withQos).1| <= |s|
    decreases left
  {
    hide ReadTopics, NameOf, Word;
    TopicsEnd(s, left, withQos);
    if left > 3 && |s| >= 2 {
      var n := Word(s[0], s[1]);
      var name, r := NameOf(s[2..], n), After(s[2..], n);
      NameLength(s[2..], n);
      if !withQos || r != [] {
        TopicStep(s, left, withQos, name, r);
        TopicsConsume(if withQos then r[1..] else r, left - 2 - n - (if withQos then 1 else 0), withQos);
      }
    }
  }

  lemma StringConsumes(s: bytes)
    ensures ReadString(s).Ok? ==> |ReadString(s).rest| <= |s|
  {
  }

  lemma CredentialConsumes(s: bytes, flagged: bool, left: int)
    ensures ParseCredential(s, flagged, left).Ok? ==> |ParseCredential(s, flagged, left).rest| <= |s|
  {
    hide ReadString;
    StringConsumes(s);
  }

  lemma WillConsumes(s: bytes, will: bool, left: int)
    ensures ParseWill(s, will, left).Ok? ==> |ParseWill(s, will, left).rest| <= |s|
  {
    hide ReadString;
    StringConsumes(s);
    if ReadString(s).Ok? {
      StringConsumes(ReadString(s).rest);
    }
  }

  lemma TailConsumes(s: bytes, c: Connect, left: int)
    requires ParseConnectTail(s, c, left).Ok?
    ensures |ParseConnectTail(s, c, left).rest| <= |s|
  {
    hide ParseWill, ParseCredential;
    WillConsumes(s, c.flags.willFlag, left);
    var will := ParseWill(s, c.flags.willFlag, left);
    CredentialConsumes(will.rest, c.flags.userName, will.value.2);
    var user := ParseCredential(will.rest, c.flags.userName, will.value.2);
    CredentialConsumes(user.rest, c.flags.password, user.value.1);
  }

  lemma LevelConsumes(s: bytes)
    ensures ParseLevel(s).Ok? ==> |ParseLevel(s).rest| <= |s|
  {
    hide ParseFlags;
  }

  lemma ConnectConsumes(s: bytes, length: nat)
    requires ParseConnect(s, length).Ok?
    ensures |ParseConnect(s, length).rest| <= |s|
  {
    hide ReadString, ParseLevel, ParseConnectTail;
    StringConsumes(s);
    var protocol := ReadString(s);
    LevelConsumes(protocol.rest);
    var level := ParseLevel(protocol.rest);
    StringConsumes(level.rest);
    var id := ReadString(level.rest);
    var c := Connect(protocol.value, level.value.0, level.value.1, level.value.2, id.value, None, None, None, None);
    TailConsumes(id.rest, c, length - 2 - |protocol.value| - 4 - |id.value|);
  }

  lemma BodyConsumes(s: bytes, t: nat, qos: nat, length: nat)
    requires ParseBody(s, t, qos, length).Ok?
    ensures |ParseBody(s, t, qos, length).rest| <= |s|
  {
    hide ParseConnect, ReadTopics;
    if t == CONNECT {
      ConnectConsumes(s, length);
    } else if t == SUBSCRIBE || t == UNSUBSCRIBE {
      TopicsConsume(ReadInt(s).rest, length, t == SUBSCRIBE);
    }
  }

  lemma {:induction false} SubAcksSendable(mid: nat, ts: seq<Topic>, maxLength: int)
    requires mid < 65536 && maxLength >= 3
    ensures AllSendable(SubAcks(mid, ts), maxLength)
  {
    if ts != [] {
      SubAcksSendable(mid, ts[..|ts| - 1], maxLength);
    }
  }

  /** Whatever is received, every answer is a pack its receiver reads back. */
  lemma AnswersSendable(p: Pack, maxLength: int)
    requires Shaped(p) && maxLength >= 3
    ensures AllSendable(Answers(p), maxLength)
  {
    if p.variable.SubscribeVar? {
      SubAcksSendable(p.variable.mid, p.variable.topics, maxLength);
    }
  }

  // ------------------------------------------------------------ the read loop

  /** The packs of a stream, up to the first error. */
  function ParseAll(s: bytes, maxLength: int): seq<Pack>
    decreases |s|
  {
    var p := ParsePack(s, maxLength);
    if p.Fail? then [] else
    ReadIsShaped(s, maxLength);
    [p.value] + ParseAll(p.rest, maxLength)
  }

  function AnswersAll(ps: seq<Pack>): seq<Pack>
  {
    if ps == [] then [] else Answers(ps[0]) + AnswersAll(ps[1..])
  }

  /** Whether a pack goes upstairs. */
  function Forwards(p: Pack): seq<Pack>
  {
    if p.msgType in {PUBLISH, SUBSCRIBE, UNSUBSCRIBE, PINGREQ} then [p] else []
  }

  function ForwardsAll(ps: seq<Pack>): seq<Pack>
  {
    if ps == [] then [] else Forwards(ps[0]) + ForwardsAll(ps[1..])
  }

  lemma {:induction false} AllAnswersSendable(s: bytes, maxLength: int, peerMax: int)
    requires peerMax >= 3
    ensures AllSendable(AnswersAll(ParseAll(s, maxLength)), peerMax)
    decreases |s|
  {
    hide ParsePack, Sendable, Answers;
    var p := ParsePack(s, maxLength);
    if p.Ok? {
      ReadIsShaped(s, maxLength);
      AnswersSendable(p.value, peerMax);
      AllAnswersSendable(p.rest, maxLength, peerMax);
      assert ([p.value] + ParseAll(p.rest, maxLength))[1..] == ParseAll(p.rest, maxLength);
    }
  }

  /** Over any byte stream, the packs written are in order the answers to the packs received, and the
      peer reads exactly those answers. */
  lemma AnswersArrive(s: bytes, maxLength: int, peerMax: int)
    requires peerMax >= 3
    ensures
      var answers := AnswersAll(ParseAll(s, maxLength));
      ParseMany(Stream(answers), |answers|, peerMax) == Ok(ReceivedAll(answers), [])
  {
    var answers := AnswersAll(ParseAll(s, maxLength));
    AllAnswersSendable(s, maxLength, peerMax);
    StreamRoundTrip(answers, [], peerMax);
    assert Stream(answers) + [] == Stream(answers);
  }

  class Client {
    var written: seq<Pack>
    var forwarded: seq<Pack>
    var currId: nat

    constructor ()
      ensures written == [] && forwarded == [] && currId == 0
    {
      written, forwarded, currId := [], [], 0;
    }

    /** Answers one pack on a queue that accepts writes, and hands it on where that is due. */
    method WaitPack(p: Pack)
      requires Shaped(p)
      modifies this`written, this`forwarded
      ensures written == old(written) + Answers(p)
      ensures forwarded == old(forwarded) + Forwards(p)
    {
      if p.msgType == CONNECT {
        written := written + [Blank(CONNACK, 0, 0, ConnackVar(0, 0))];
      } else if p.msgType == PUBLISH {
        if p.qos == 1 {
          written := written + [Blank(PUBACK, 0, 0, AckVar(p.variable.mid))];
        } else if p.qos == 2 {
          written := written + [Blank(PUBREC, 0, 0, AckVar(p.variable.mid))];
        }
        forwarded := forwarded + [p];
      } else if p.msgType == PUBREC {
        written := written + [Blank(PUBREL, 1, 0, AckVar(p.variable.mid))];
      } else if p.msgType == PUBREL {
        written := written + [Blank(PUBCOMP, 0, 0, AckVar(p.variable.mid))];
      } else if p.msgType == SUBSCRIBE {
        var ts := p.variable.topics;
        for i := 0 to |ts|
          invariant written == old(written) + SubAcks(p.variable.mid, ts[..i]) && forwarded == old(forwarded)
        {
          assert ts[..i + 1][..i] == ts[..i];
          if ts[i].qos == 2 {
            written := written + [Blank(SUBACK, 0, 0, SubackVar(p.variable.mid, 0))];
          }
        }
        assert ts[..|ts|] == ts;
        forwarded := forwarded + [p];
      } else if p.msgType == UNSUBSCRIBE {
        written := written + [Blank(UNSUBACK, 0, 0, UnsubackVar(p.variable.mid))];
        forwarded := forwarded + [p];
      } else if p.msgType == PINGREQ {
        written := written + [Blank(PINGRESP, 0, p.dup, Nothing)];
        forwarded := forwarded + [p];
      }
    }

    /** Reads packs until one fails, answering each and handing on those that are due. */
    method ReadPackInLoop(r: Reader, maxLength: int)
      modifies this`written, this`forwarded, r
      ensures written == old(written) + AnswersAll(ParseAll(old(r.unread), maxLength))
      ensures forwarded == old(forwarded) + ForwardsAll(ParseAll(old(r.unread), maxLength))
    {
      hide ParsePack, Answers, Forwards, Shaped;
      while true
        invariant written + AnswersAll(ParseAll(r.unread, maxLength)) ==
          old(written) + AnswersAll(ParseAll(old(r.unread), maxLength))
        invariant forwarded + ForwardsAll(ParseAll(r.unread, maxLength)) ==
          old(forwarded) + ForwardsAll(ParseAll(old(r.unread), maxLength))
        decreases |r.unread|
      {
        ghost var s, before := r.unread, written;
        NextAnswers(s, maxLength, before);
        NextForwards(s, maxLength, forwarded);
        var o := r.ReadPack(maxLength);
        if o.Err? {
          return;
        }
        ReadIsShaped(s, maxLength);
        WaitPack(o.value);
      }
    }

    /** The id for the next message: 1 to 65535, then 1 again. */
    method GetOnlineMsgId() returns (id: nat)
      modifies this`currId
      ensures id == currId == NextId(old(currId))
    {
      if currId == 65535 {
        currId := 1;
      } else {
        currId := currId + 1;
      }
      id := currId;
    }

    /** Sends a message of the server, on a queue that accepts writes. */
    method WriteMsg(topic: bytes, body: bytes)
      modifies this`currId, this`written
      ensures currId == NextId(old(currId))
      ensures written == old(written) + [MessagePack(topic, NextId(old(currId)), body)]
    {
      var id := GetOnlineMsgId();
      written := written + [MessagePack(topic, id, body)];
    }
  }

  lemma NextAnswers(s: bytes, maxLength: int, before: seq<Pack>)
    ensures ParsePack(s, maxLength).Ok? ==>
      before + AnswersAll(ParseAll(s, maxLength)) ==
        before + Answers(ParsePack(s, maxLength).value) + AnswersAll(ParseAll(ParsePack(s, maxLength).rest, maxLength))
    ensures ParsePack(s, maxLength).Fail? ==> before + AnswersAll(ParseAll(s, maxLength)) == before
  {
    hide ParsePack, Answers;
    var p := ParsePack(s, maxLength);
    if p.Ok? {
      assert ([p.value] + ParseAll(p.rest, maxLength))[1..] == ParseAll(p.rest, maxLength);
    }
  }

  lemma NextForwards(s: bytes, maxLength: int, before: seq<Pack>)
    ensures ParsePack(s, maxLength).Ok? ==>
      before + ForwardsAll(ParseAll(s, maxLength)) ==
        before + Forwards(ParsePack(s, maxLength).value) + ForwardsAll(ParseAll(ParsePack(s, maxLength).rest, maxLength))
    ensures ParsePack(s, maxLength).Fail? ==> before + ForwardsAll(ParseAll(s, maxLength)) == before
  {
    hide ParsePack, Forwards;
    var p := ParsePack(s, maxLength);
    if p.Ok? {
      assert ([p.value] + ParseAll(p.rest, maxLength))[1..] == ParseAll(p.rest, maxLength);
    }
  }

  // ------------------------------------------------------------ message ids

  function NextId(id: nat): nat
  {
    if id == 65535 then 1 else id + 1
  }

  /** The id of the k-th message. */
  function IdOf(k: nat): nat
  {
    if k == 0 then NextId(0) else NextId(IdOf(k - 1))
  }

  lemma {:induction false} IdIs(k: nat)
    ensures IdOf(k) == k % 65535 + 1
  {
    if k > 0 {
      IdIs(k - 1);
    }
  }

  /** No id is 0, each fits two bytes, and any 65535 consecutive messages have different ids. */
  lemma IdsDistinct(k: nat, m: nat)
    requires k < m < k + 65535
    ensures 1 <= IdOf(k) <= 65535 && IdOf(k) != IdOf(m)
  {
    IdIs(k);
    IdIs(m);
  }

  // ------------------------------------------------------------ the exactly-once handshake

  /** A pack goes over the wire and is answered at the other end. */
  ghost predicate AnsweredBy(p: Pack, q: Pack, maxLength: int)
  {
    && Encode(p).Some?
    && var r := ParsePack(Encode(p).value, maxLength);
       r.Ok? && r.rest == [] && Answers(r.value) == [q]
  }

  lemma OverTheWire(p: Pack, maxLength: int)
    requires Sendable(p, maxLength)
    ensures Encode(p).Some? && ParsePack(Encode(p).value, maxLength) == Ok(Received(p), [])
  {
    PackRoundTrip(p, [], maxLength);
    assert Encode(p).value + [] == Encode(p).value;
  }

  /** A sendable QoS 2 message starts an exchange that ends: two ends with these answers pass PUBREC,
      PUBREL and PUBCOMP over the wire, all with the message's id, and then nothing. */
  lemma HandshakeCompletes(p: Pack, maxLength: int)
    requires Sendable(p, maxLength) && p.msgType == PUBLISH && p.qos == 2 && maxLength >= 3
    ensures
      var id := AckVar(p.variable.mid);
      var rec, rel, comp := Blank(PUBREC, 0, 0, id), Blank(PUBREL, 1, 0, id), Blank(PUBCOMP, 0, 0, id);
      && AnsweredBy(p, rec, maxLength) && AnsweredBy(rec, rel, maxLength) && AnsweredBy(rel, comp, maxLength)
      && Answers(Received(comp)) == []
  {
    hide ParsePack, Encode;
    var id := AckVar(p.variable.mid);
    OverTheWire(p, maxLength);
    OverTheWire(Blank(PUBREC, 0, 0, id), maxLength);
    OverTheWire(Blank(PUBREL, 1, 0, id), maxLength);
  }
}
