/** ReadPack and DelayWritePack as the source has them: a reader that consumes its bytes step by
    step and a writer that appends, each against the functions of Mqtt. */
module MqttIO {
  import opened Values
  import opened Bits
  import opened Mqtt
  import opened MqttRoundTrip

  datatype Outcome<+T> = Done(value: T) | Err(error: Error)

  /** The outcome is the parsed value, and the unread bytes are those after it. */
  ghost predicate Reads<T>(o: Outcome<T>, unread: bytes, p: Parsed<T>)
  {
    match p
    case Ok(v, r) => o == Done(v) && unread == r
    case Fail(e) => o == Err(e)
  }

  class Reader {
    var unread: bytes

    constructor (s: bytes)
      ensures unread == s
    {
      unread := s;
    }

    method NextByte() returns (o: Outcome<byte>)
      modifies this
      ensures Reads(o, unread, ReadByte(old(unread)))
      ensures o.Err? ==> unread == []
    {
      if |unread| == 0 {
        return Err(Eof);
      }
      o := Done(unread[0]);
      unread := unread[1..];
    }

    /** io.ReadFull: too few bytes are consumed all the same. */
    method Full(n: nat) returns (o: Outcome<bytes>)
      modifies this
      ensures Reads(o, unread, ReadFull(old(unread), n))
      ensures o.Err? ==> unread == []
    {
      if |unread| < n {
        unread := [];
        return Err(Eof);
      }
      o := Done(unread[..n]);
      unread := unread[n..];
    }

    method Int() returns (o: Outcome<nat>)
      modifies this
      ensures Reads(o, unread, ReadInt(old(unread)))
      ensures o.Err? ==> unread == []
    {
      var b := Full(2);
      if b.Err? {
        return Err(b.error);
      }
      o := Done(Word(b.value[0], b.value[1]));
    }

    method String() returns (o: Outcome<bytes>)
      modifies this
      ensures Reads(o, unread, ReadString(old(unread)))
    {
      var n := Int();
      if n.Err? {
        return Err(n.error);
      }
      if n.value > 0 {
        o := Full(n.value);
      } else {
        o := Done([]);
      }
    }

    /** The loop over length bytes, at most three. */
    method Length() returns (o: Outcome<nat>)
      modifies this
      ensures Reads(o, unread, ReadLength(old(unread)))
    {
      var b := NextByte();
      if b.Err? {
        return Err(b.error);
      }
      var temp: byte := b.value;
      var count: nat, multiplier: nat, length: nat := 1, 1, 0;
      assert [temp] + unread == old(unread);
      while true
        invariant 1 <= count < 4
        invariant ReadLength(old(unread)) == ReadLengthFrom([temp] + unread, count, multiplier, length)
        decreases 4 - count
      {
        ReadOneMore(temp, unread, count, multiplier, length);
        count := count + 1;
        length := length + temp % 128 * multiplier;
        if temp / 128 != 0 && count < 4 {
          ghost var before := unread;
          b := NextByte();
          if b.Err? {
            return Err(b.error);
          }
          temp := b.value;
          assert [temp] + unread == before;
          multiplier := multiplier * 128;
        } else {
          break;
        }
      }
      o := Done(length);
    }

    method ConnectTail(c: Connect, left: int) returns (o: Outcome<Connect>)
      modifies this
      ensures Reads(o, unread, ParseConnectTail(old(unread), c, left))
    {
      hide ReadString;
      var conn, playloadLen := c, left;
      if c.flags.willFlag {
        var topic := String();
        if topic.Err? { return Err(topic.error); }
        playloadLen := playloadLen - |topic.value|;
        if playloadLen < 0 { return Err(LengthError); }
        var msg := String();
        if msg.Err? { return Err(msg.error); }
        playloadLen := playloadLen - |msg.value|;
        conn := conn.(willTopic := Some(topic.value), willMsg := Some(msg.value));
      } else {
        conn := conn.(willTopic := None, willMsg := None);
      }
      var user, pass := None, None;
      if c.flags.userName && playloadLen > 0 {
        var name := String();
        if name.Err? { return Err(name.error); }
        playloadLen := playloadLen - |name.value|;
        if playloadLen < 0 { return Err(LengthError); }
        user := Some(name.value);
      }
      if c.flags.password && playloadLen > 0 {
        var name := String();
        if name.Err? { return Err(name.error); }
        playloadLen := playloadLen - |name.value|;
        if playloadLen < 0 { return Err(LengthError); }
        pass := Some(name.value);
      }
      o := Done(conn.(userName := user, password := pass));
    }

    method ConnectBody(length: nat) returns (o: Outcome<Connect>)
      modifies this
      ensures Reads(o, unread, ParseConnect(old(unread), length))
    {
      hide ReadString, ReadInt, ParseFlags, ParseConnectTail;
      var protocol := String();
      if protocol.Err? { return Err(protocol.error); }
      var n := |protocol.value|;
      if n > length - 4 { return Err(OutOfRange); }
      var version := NextByte();
      if version.Err? { return Err(version.error); }
      var flags := NextByte();
      if flags.Err? { return Err(flags.error); }
      var keepAlive := Int();
      if keepAlive.Err? { return Err(keepAlive.error); }
      var playloadLen := length - 2 - n - 4;
      var id := String();
      if id.Err? { return Err(id.error); }
      if |id.value| > 64 || |id.value| < 1 { return Err(IdentifierRejected); }
      playloadLen := playloadLen - |id.value|;
      o := ConnectTail(Connect(protocol.value, version.value, ParseFlags(flags.value), keepAlive.value, id.value,
                               None, None, None, None), playloadLen);
    }

    method PublishBody(length: nat, qos: nat) returns (o: Outcome<Variable>)
      modifies this
      ensures Reads(o, unread, ParsePublish(old(unread), length, qos))
    {
      hide ReadString, ReadInt;
      var topic := String();
      if topic.Err? { return Err(topic.error); }
      var vlen := length - |topic.value| - 2;
      if |topic.value| < 1 { return Err(LengthError); }
      var mid := 0;
      if qos > 0 {
        if vlen < 2 { return Err(LengthError); }
        var id := Int();
        if id.Err? { return Err(id.error); }
        mid := id.value;
        vlen := vlen - 2;
      }
      if vlen <= 0 {
        return Done(PublishVar(topic.value, mid, []));
      }
      var msg := Full(vlen);
      if msg.Err? { return Err(msg.error); }
      o := Done(PublishVar(topic.value, mid, msg.value));
    }

    /** io.ReadFull into a zeroed buffer with the error ignored: what is missing stays zero. */
    method Buffer(n: nat) returns (buf: bytes)
      modifies this
      ensures buf == NameOf(old(unread), n) && unread == After(old(unread), n)
    {
      if |unread| < n {
        buf := unread + seq(n - |unread|, _ => 0);
        unread := [];
      } else {
        buf := unread[..n];
        unread := unread[n..];
      }
    }

    /** The topic loops of SUBSCRIBE and UNSUBSCRIBE. A read error inside only ends the loop. */
    method Topics(length: int, withQos: bool) returns (topics: seq<Topic>)
      modifies this
      ensures (topics, unread) == ReadTopics(old(unread), length, withQos)
    {
      hide ReadTopics, NameOf, After;
      topics := [];
      var vlen := length;
      TopicsEnd(unread, vlen, withQos);
      assert topics + ReadTopics(unread, vlen, withQos).0 == ReadTopics(unread, vlen, withQos).0;
      while vlen > 3
        invariant vlen <= 3 ==> ReadTopics(unread, vlen, withQos) == ([], unread)
        invariant
          var (ts, r) := ReadTopics(unread, vlen, withQos);
          ReadTopics(old(unread), length, withQos) == (topics + ts, r)
        decreases vlen
      {
        TopicsEnd(unread, vlen, withQos);
        assert topics + [] == topics;
        ghost var s := unread;
        var nlen := Int();
        if nlen.Err? {
          return;
        }
        var str := Buffer(nlen.value);
        NameLength(s[2..], nlen.value);
        ghost var r := unread;
        var q: byte := 0;
        if withQos {
          var tQos := NextByte();
          if tQos.Err? {
            return;
          }
          q := tQos.value;
        }
        TopicStep(s, vlen, withQos, str, r);
        vlen := vlen - 2 - nlen.value - if withQos then 1 else 0;
        ghost var more := ReadTopics(unread, vlen, withQos).0;
        assert topics + [Topic(str, q)] + more == topics + ([Topic(str, q)] + more);
        topics := topics + [Topic(str, q)];
        TopicsEnd(unread, vlen, withQos);
      }
      assert topics + [] == topics;
    }

    method Ack(length: nat) returns (o: Outcome<nat>)
      modifies this
      ensures Reads(o, unread, ParseAck(old(unread), length))
    {
      if length == 2 {
        o := Int();
      } else {
        o := Err(WrongLength);
      }
    }

    method Body(msgType: nat, qos: nat, length: nat) returns (o: Outcome<Variable>)
      modifies this
      ensures Reads(o, unread, ParseBody(old(unread), msgType, qos, length))
    {
      hide ParseConnect, ParsePublish, ReadTopics, ReadInt;
      if msgType == CONNECT {
        var c := ConnectBody(length);
        o := if c.Err? then Err(c.error) else Done(ConnectVar(c.value));
      } else if msgType == PUBLISH {
        o := PublishBody(length, qos);
      } else if msgType == PUBACK || msgType == PUBREC || msgType == PUBREL || msgType == PUBCOMP {
        var mid := Ack(length);
        o := if mid.Err? then Err(mid.error) else Done(AckVar(mid.value));
      } else if msgType == SUBSCRIBE || msgType == UNSUBSCRIBE {
        var mid := Int();
        if mid.Err? { return Err(mid.error); }
        var topics := Topics(length, msgType == SUBSCRIBE);
        o := Done(if msgType == SUBSCRIBE then SubscribeVar(mid.value, topics) else UnsubscribeVar(mid.value, topics));
      } else if msgType == SUBACK {
        if length != 3 { return Err(WrongLength); }
        var mid := Int();
        if mid.Err? { return Err(mid.error); }
        var q := NextByte();
        if q.Err? { return Err(q.error); }
        o := Done(SubackVar(mid.value, q.value));
      } else if msgType == UNSUBACK {
        var mid := Ack(length);
        o := if mid.Err? then Err(mid.error) else Done(UnsubackVar(mid.value));
      } else {
        if msgType != PINGREQ && msgType != DISCONNECT && length > 0 {
          var buf := Full(length);
          if buf.Err? { return Err(buf.error); }
        }
        o := Done(Nothing);
      }
    }

    /** One pack off the stream: the value and the consumption of ParsePack, or its error. */
    method ReadPack(maxLength: int) returns (o: Outcome<Pack>)
      modifies this
      ensures Reads(o, unread, ParsePack(old(unread), maxLength))
    {
      hide ReadLength, ParseBody;
      var fixed := NextByte();
      if fixed.Err? { return Err(fixed.error); }
      var b := fixed.value;
      var msgType := b / 16;
      b := b % 16;
      var dup := b / 8;
      b := b % 8;
      var qos := b / 2;
      var retain := b % 2;
      var length := Length();
      if length.Err? { return Err(length.error); }
      if length.value > maxLength { return Err(TooLong); }
      var v := Body(msgType, qos, length.value);
      if v.Err? { return Err(v.error); }
      assert fixed.value % 16 % 8 == fixed.value % 8 && fixed.value % 8 % 2 == fixed.value % 2;
      o := Done(Pack(msgType, dup, qos, retain, length.value, v.value));
    }
  }

  lemma NameLength(s: bytes, n: nat)
    ensures |NameOf(s, n)| == n
  {
  }

  // ------------------------------------------------------------ writing

  /** The division loop: four bytes of room, filled from the front. A length that needs a fifth byte
      overruns them. */
  method GetRemainingLength(length: nat) returns (r: Option<bytes>)
    ensures r == LengthBytes(length)
  {
    var b := new byte[4](_ => 0);
    var count, n := 0, length;
    while true
      invariant 0 <= count <= 4 && b.Length == 4
      invariant EncodeLength(length) == b[..count] + EncodeLength(n)
      invariant count == 0 ==> n == length
      invariant count == 1 ==> n == length / 128
      invariant count == 2 ==> n == length / 16384
      invariant count == 3 ==> n == length / 2097152
      invariant count == 4 ==> n == length / 268435456 && n > 0
      decreases n
    {
      if count == 4 {
        return None;
      }
      var digit := n % 128;
      var next := n / 128;
      ghost var before := b[..count];
      if next > 0 {
        SetTopBit(digit);
        b[count] := Or(digit, 128);
        assert b[..count + 1] == before + [digit + 128];
        assert EncodeLength(n) == [digit + 128] + EncodeLength(next);
        Assoc(before, [digit + 128], EncodeLength(next));
      } else {
        b[count] := digit;
        assert b[..count + 1] == before + [digit];
        return Some(b[..count + 1]);
      }
      n := next;
      count := count + 1;
    }
  }

  lemma SetTopBit(digit: nat)
    requires digit < 128
    ensures Or(digit, 128) == digit + 128
  {
    assert Pow2(7) == 128 by { ByteRange(); assert Pow2(8) == 2 * Pow2(7); }
    OrCommutes(digit, 128);
    OrDisjoint(128, digit, 7);
  }

  class Writer {
    var written: bytes

    constructor ()
      ensures written == []
    {
      written := [];
    }

    method PutInt(n: nat)
      modifies this
      ensures written == old(written) + EncodeInt(n)
    {
      written := written + [n / 256 % 256, n % 256];
    }

    method PutString(b: bytes)
      modifies this
      ensures written == old(written) + EncodeString(b)
    {
      PutInt(|b|);
      written := written + b;
    }

    method PutTopics(ts: seq<Topic>, withQos: bool)
      modifies this
      ensures written == old(written) + EncodeTopics(ts, withQos)
    {
      for i := 0 to |ts|
        invariant written + EncodeTopics(ts[i..], withQos) == old(written) + EncodeTopics(ts, withQos)
      {
        TopicsStep(written, ts, i, withQos);
        PutString(ts[i].name);
        if withQos {
          written := written + [ts[i].qos];
        }
      }
    }

    method PublishBody(v: Variable, qos: nat) returns (ok: bool)
      requires v.PublishVar?
      modifies this
      ensures ok <==> LengthBytes(PublishLength(qos, v.topic, v.msg)).Some?
      ensures ok ==>
        written == old(written) + (LengthBytes(PublishLength(qos, v.topic, v.msg)).value
          + EncodeString(v.topic) + (if qos > 0 then EncodeInt(v.mid) else []) + v.msg)
      ensures !ok ==> written == old(written)
    {
      hide EncodeLength, EncodeInt, EncodeString;
      var l := GetRemainingLength((if qos > 0 then 4 else 2) + |v.topic| + |v.msg|);
      if l.None? {
        return false;
      }
      written := written + l.value;
      PutString(v.topic);
      if qos > 0 {
        PutInt(v.mid);
      }
      written := written + v.msg;
      ok := true;
    }

    /** One length byte, whatever the length needs, then id and topics. */
    method TopicsBody(mid: nat, ts: seq<Topic>, withQos: bool) returns (ok: bool)
      modifies this
      ensures ok <==> LengthBytes(|EncodeTopics(ts, withQos)|).Some?
      ensures ok ==>
        written == old(written) + ([LengthBytes(|EncodeTopics(ts, withQos)|).value[0]] + EncodeInt(mid) + EncodeTopics(ts, withQos))
      ensures !ok ==> written == old(written)
    {
      hide EncodeInt, EncodeString;
      var tnum := 0;
      for i := 0 to |ts|
        invariant written == old(written)
        invariant tnum + |EncodeTopics(ts[i..], withQos)| == |EncodeTopics(ts, withQos)|
      {
        TopicsStep([], ts, i, withQos);
        tnum := tnum + 2 + |ts[i].name| + if withQos then 1 else 0;
      }
      assert EncodeTopics(ts[|ts|..], withQos) == [];
      var l := GetRemainingLength(tnum);
      if l.None? {
        return false;
      }
      ghost var before, first := written, [l.value[0]];
      written := written + [l.value[0]];
      PutInt(mid);
      PutTopics(ts, withQos);
      Assoc(before, first, EncodeInt(mid));
      Assoc(before, first + EncodeInt(mid), EncodeTopics(ts, withQos));
      ok := true;
    }

    method Body(p: Pack) returns (ok: bool)
      modifies this
      ensures ok <==> EncodeBody(p).Some?
      ensures ok ==> written == old(written) + EncodeBody(p).value
      ensures !ok ==> written == old(written)
    {
      hide EncodeTopics, EncodeLength, EncodeInt;
      ok := true;
      if p.msgType == CONNACK {
        if !p.variable.ConnackVar? { return false; }
        written := written + [2, p.variable.reserved, p.variable.returnCode];
      } else if p.msgType == PUBLISH {
        if !p.variable.PublishVar? { return false; }
        ok := PublishBody(p.variable, p.qos);
      } else if p.msgType == PUBACK || p.msgType == PUBREC || p.msgType == PUBREL || p.msgType == PUBCOMP {
        if !p.variable.AckVar? { return false; }
        written := written + [2];
        PutInt(p.variable.mid);
      } else if p.msgType == SUBSCRIBE {
        if !p.variable.SubscribeVar? { return false; }
        ok := TopicsBody(p.variable.mid, p.variable.topics, true);
      } else if p.msgType == SUBACK {
        if !p.variable.SubackVar? { return false; }
        written := written + [3];
        PutInt(p.variable.mid);
        written := written + [p.variable.qos];
      } else if p.msgType == UNSUBSCRIBE {
        if !p.variable.UnsubscribeVar? { return false; }
        ok := TopicsBody(p.variable.mid, p.variable.topics, false);
      } else if p.msgType == UNSUBACK {
        if !p.variable.UnsubackVar? { return false; }
        written := written + [2];
        PutInt(p.variable.mid);
      } else if p.msgType == PINGRESP {
        written := written + [0];
      }
    }

    /** Appends the pack's encoding; false where the source panics, which leaves the first byte behind. */
    method DelayWritePack(p: Pack) returns (ok: bool)
      modifies this
      ensures ok <==> Encode(p).Some?
      ensures ok ==> written == old(written) + Encode(p).value
      ensures !ok ==> written == old(written) + [FixedHeader(p)]
    {
      hide EncodeBody;
      written := written + [FixedHeader(p)];
      ok := Body(p);
    }
  }

  lemma TopicsStep(before: bytes, ts: seq<Topic>, i: nat, withQos: bool)
    requires i < |ts|
    ensures EncodeTopics(ts[i..], withQos) ==
      EncodeString(ts[i].name) + (if withQos then [ts[i].qos] else []) + EncodeTopics(ts[i + 1..], withQos)
    ensures |EncodeString(ts[i].name)| == 2 + |ts[i].name|
    ensures before + EncodeTopics(ts[i..], withQos) ==
      before + EncodeString(ts[i].name) + (if withQos then [ts[i].qos] else []) + EncodeTopics(ts[i + 1..], withQos)
  {
    assert ts[i..][1..] == ts[i + 1..];
  }
}
