/** The packets a client sends, as MQTT 3.1.1 lays them out in sections 3.1 (CONNECT), 3.8
    (SUBSCRIBE) and 3.10 (UNSUBSCRIBE), against the reader. The layouts are written out from the standard
    and use nothing of the writer. */
module MqttStandard {
  import opened Values
  import opened Bits
  import opened Mqtt
  import opened MqttRoundTrip

  // ------------------------------------------------------------ the standard's data types

  /** Section 1.5.2: two bytes, the high one first. */
  function Two(n: nat): bytes
    requires n < 65536
  {
    [n / 256, n % 256]
  }

  /** Section 1.5.3: a text after its length. */
  function Text(b: bytes): bytes
    requires Short(b)
  {
    Two(|b|) + b
  }

  predicate Short(b: bytes)
  {
    |b| < 65536
  }

  /** Section 2.2.3, table 2.4: the Remaining Length in one to four bytes. */
  function LengthField(n: nat): bytes
    requires n < 268435456
  {
    if n < 128 then [n]
    else if n < 16384 then [n % 128 + 128, n / 128]
    else if n < 2097152 then [n % 128 + 128, n / 128 % 128 + 128, n / 16384]
    else [n % 128 + 128, n / 128 % 128 + 128, n / 16384 % 128 + 128, n / 2097152]
  }

  lemma TwoRead(n: nat, rest: bytes)
    requires n < 65536
    ensures Two(n) == EncodeInt(n) && ReadInt(Two(n) + rest) == Ok(n, rest)
  {
    IntRoundTrip(n, rest);
  }

  lemma TextRead(b: bytes, rest: bytes)
    requires Short(b)
    ensures Text(b) == EncodeString(b) && ReadString(Text(b) + rest) == Ok(b, rest)
  {
    TwoRead(|b|, rest);
    StringRoundTrip(b, rest);
  }

  lemma LengthIs(n: nat)
    requires n < 268435456
    ensures EncodeLength(n) == LengthField(n)
  {
    var n1, n2, n3 := n / 128, n / 16384, n / 2097152;
    assert n1 / 128 == n2 && n2 / 128 == n3;
    if n >= 128 {
      assert EncodeLength(n) == [n % 128 + 128] + EncodeLength(n1);
      if n >= 16384 {
        assert EncodeLength(n1) == [n1 % 128 + 128] + EncodeLength(n2);
        if n >= 2097152 {
          assert EncodeLength(n2) == [n2 % 128 + 128] + EncodeLength(n3);
        }
      }
    }
  }

  // ------------------------------------------------------------ CONNECT

  function Bit(b: bool, weight: nat): nat
  {
    if b then weight else 0
  }

  /** Section 3.1.2.3: the connect flags byte. */
  function FlagsByte(f: Flags): byte
    requires f.willQos < 4
  {
    Bit(f.userName, 128) + Bit(f.password, 64) + Bit(f.willRetain, 32) + f.willQos * 8
      + Bit(f.willFlag, 4) + Bit(f.cleanSession, 2) + Bit(f.reserved, 1)
  }

  lemma TopBit(total: nat, x: bool, weight: nat, low: nat)
    requires low < weight && total == Bit(x, weight) + low
    ensures total % weight == low && (total / weight != 0 <==> x)
  {
    RemainderIs(total, weight, Bit(x, 1), low);
  }

  lemma BitByBit(b: byte, r1: nat, r2: nat, r3: nat, r4: nat, r5: nat)
    requires b % 128 == r1 && r1 % 64 == r2 && r2 % 32 == r3 && r3 % 8 == r4 && r4 % 4 == r5
    ensures ParseFlags(b) ==
      Flags(b / 128 != 0, r1 / 64 != 0, r2 / 32 != 0, r3 / 8, r4 / 4 != 0, r5 / 2 != 0, r5 % 2 != 0)
  {
  }

  lemma FlagsRoundTrip(f: Flags)
    requires f.willQos < 4
    ensures ParseFlags(FlagsByte(f)) == f
  {
    var b, r6 := FlagsByte(f), Bit(f.reserved, 1);
    var r5 := Bit(f.cleanSession, 2) + r6;
    var r4 := Bit(f.willFlag, 4) + r5;
    var r3 := f.willQos * 8 + r4;
    var r2 := Bit(f.willRetain, 32) + r3;
    var r1 := Bit(f.password, 64) + r2;
    TopBit(b, f.userName, 128, r1);
    TopBit(r1, f.password, 64, r2);
    TopBit(r2, f.willRetain, 32, r3);
    RemainderIs(r3, 8, f.willQos, r4);
    TopBit(r4, f.willFlag, 4, r5);
    TopBit(r5, f.cleanSession, 2, r6);
    BitByBit(b, r1, r2, r3, r4, r5);
  }

  function Field(o: Option<bytes>): bytes
    requires ShortField(o)
  {
    if o.Some? then Text(o.value) else []
  }

  predicate ShortField(o: Option<bytes>)
  {
    o.Some? ==> Short(o.value)
  }

  /** A CONNECT whose payload has exactly the fields its flags announce. */
  predicate WellFormed(c: Connect)
  {
    && c.flags.willQos < 4 && c.keepAlive < 65536
    && Short(c.protocol) && Short(c.id)
    && (c.flags.willFlag <==> c.willTopic.Some?) && (c.flags.willFlag <==> c.willMsg.Some?)
    && (c.flags.userName <==> c.userName.Some?) && (c.flags.password <==> c.password.Some?)
    && ShortField(c.willTopic) && ShortField(c.willMsg) && ShortField(c.userName) && ShortField(c.password)
  }

  /** Section 3.1.3: the payload after the client id. */
  function ConnectTail(c: Connect): bytes
    requires WellFormed(c)
  {
    Field(c.willTopic) + (Field(c.willMsg) + (Field(c.userName) + Field(c.password)))
  }

  /** Section 3.1.2: protocol level, flags and keep alive. */
  function Level(c: Connect): bytes
    requires WellFormed(c)
  {
    [c.version, FlagsByte(c.flags)] + Two(c.keepAlive)
  }

  function ConnectBody(c: Connect): bytes
    requires WellFormed(c)
  {
    Text(c.protocol) + (Level(c) + (Text(c.id) + ConnectTail(c)))
  }

  function Packet(header: byte, body: bytes): bytes
    requires |body| < 268435456
  {
    [header] + (LengthField(|body|) + body)
  }

  /** A packet whose length the reader takes is refused if that is above the bound, and else goes to the
      reader of its type. */
  lemma PacketParses(
      header: byte, t: nat, dup: nat, qos: nat, retain: nat, body: bytes, rest: bytes, maxLength: int)
    requires header == t * 16 + dup * 8 + qos * 2 + retain && dup < 2 && qos < 4 && retain < 2
    requires |body| <= MAX_READABLE
    ensures ParsePack(Packet(header, body) + rest, maxLength) ==
      if |body| > maxLength then Fail(TooLong) else
      match ParseBody(body + rest, t, qos, |body|)
      case Ok(v, r) => Ok(Pack(t, dup, qos, retain, |body|, v), r)
      case Fail(e) => Fail(e)
  {
    LengthIs(|body|);
    Assoc([header], LengthField(|body|) + body, rest);
    Assoc(LengthField(|body|), body, rest);
    hide ParseBody;
    HeaderDigits(header, t, dup, qos, retain);
    ParseAfterLength(header, |body|, body + rest, maxLength);
  }

  lemma HeaderDigits(header: byte, t: nat, dup: nat, qos: nat, retain: nat)
    requires header == t * 16 + dup * 8 + qos * 2 + retain && dup < 2 && qos < 4 && retain < 2
    ensures header / 16 == t && header % 16 / 8 == dup && header % 8 / 2 == qos && header % 2 == retain
  {
  }

  lemma WillRead(c: Connect, rest: bytes, left: int)
    requires WellFormed(c)
    ensures ParseWill(Field(c.willTopic) + (Field(c.willMsg) + rest), c.flags.willFlag, left) ==
      if c.flags.willFlag && left < |c.willTopic.value| then Fail(LengthError)
      else Ok((c.willTopic, c.willMsg, left - Size(c.willTopic) - Size(c.willMsg)), rest)
  {
    if c.flags.willFlag {
      TextRead(c.willTopic.value, Field(c.willMsg) + rest);
      TextRead(c.willMsg.value, rest);
    } else {
      assert Field(c.willTopic) + (Field(c.willMsg) + rest) == rest;
    }
  }

  /** What a field takes off the count: its length bytes are not counted. */
  function Size(o: Option<bytes>): nat
  {
    if o.Some? then |o.value| else 0
  }

  lemma CredentialRead(o: Option<bytes>, rest: bytes, left: int)
    requires ShortField(o)
    ensures ParseCredential(Field(o) + rest, o.Some?, left) ==
      if o.None? then Ok((None, left), rest)
      else if left <= 0 then Ok((None, left), Field(o) + rest)
      else if left < |o.value| then Fail(LengthError)
      else Ok((o, left - |o.value|), rest)
  {
    if o.Some? {
      TextRead(o.value, rest);
    } else {
      assert Field(o) + rest == rest;
    }
  }

  /** The credentials, by the count of bytes left when they begin: one that begins with nothing left stays
      in the stream with all that follows, and one in which the count ends is refused. */
  function Credentials(c: Connect, left: int, rest: bytes): Parsed<Connect>
    requires WellFormed(c)
  {
    if c.flags.userName && left <= 0 then
      Ok(c.(userName := None, password := None), Field(c.userName) + (Field(c.password) + rest))
    else if c.flags.userName && left < |c.userName.value| then Fail(LengthError)
    else
      var forPass := left - Size(c.userName);
      if c.flags.password && forPass <= 0 then Ok(c.(password := None), Field(c.password) + rest)
      else if c.flags.password && forPass < |c.password.value| then Fail(LengthError)
      else Ok(c, rest)
  }

  /** The payload after the client id, likewise. */
  function Counted(c: Connect, left: int, rest: bytes): Parsed<Connect>
    requires WellFormed(c)
  {
    if c.flags.willFlag && left < |c.willTopic.value| then Fail(LengthError)
    else Credentials(c, left - Size(c.willTopic) - Size(c.willMsg), rest)
  }

  lemma TailCounts(c: Connect, bare: Connect, rest: bytes, left: int)
    requires WellFormed(c)
    requires bare == c.(willTopic := None, willMsg := None, userName := None, password := None)
    ensures ParseConnectTail(ConnectTail(c) + rest, bare, left) == Counted(c, left, rest)
  {
    hide ParseConnectTail, ParseWill, Credentials;
    TailParts(c, rest);
    WillRead(c, Field(c.userName) + (Field(c.password) + rest), left);
    if c.flags.willFlag && left < |c.willTopic.value| {
      TailWillFails(ConnectTail(c) + rest, bare, left);
    } else {
      TailAfterWill(c, bare, rest, ConnectTail(c) + rest, left, left - Size(c.willTopic) - Size(c.willMsg));
    }
  }

  lemma TailParts(c: Connect, rest: bytes)
    requires WellFormed(c)
    ensures ConnectTail(c) + rest ==
      Field(c.willTopic) + (Field(c.willMsg) + (Field(c.userName) + (Field(c.password) + rest)))
  {
    hide Field;
    FourConcat(Field(c.willTopic), Field(c.willMsg), Field(c.userName), Field(c.password), rest);
  }

  lemma FourConcat(a: bytes, b: bytes, c: bytes, d: bytes, e: bytes)
    ensures a + (b + (c + d)) + e == a + (b + (c + (d + e)))
  {
  }

  lemma TailWillFails(s: bytes, bare: Connect, left: int)
    requires ParseWill(s, bare.flags.willFlag, left).Fail?
    ensures ParseConnectTail(s, bare, left) == Fail(ParseWill(s, bare.flags.willFlag, left).error)
  {
    hide ParseWill;
  }

  lemma TailAfterWill(c: Connect, bare: Connect, rest: bytes, s: bytes, left: int, forUser: int)
    requires WellFormed(c)
    requires bare == c.(willTopic := None, willMsg := None, userName := None, password := None)
    requires ParseWill(s, c.flags.willFlag, left) ==
      Ok((c.willTopic, c.willMsg, forUser), Field(c.userName) + (Field(c.password) + rest))
    ensures ParseConnectTail(s, bare, left) == Credentials(c, forUser, rest)
  {
    hide Field, ParseWill, ParseCredential;
    var r2 := Field(c.password) + rest;
    UserRead(c, r2, forUser);
    NotRead(c, r2);
    if !c.flags.userName {
      PassRead(c, rest, forUser);
    } else if forUser <= 0 {
      PassUnread(c, Field(c.userName) + r2, forUser);
    } else {
      PassRead(c, rest, forUser - |c.userName.value|);
    }
  }

  lemma PassUnread(c: Connect, s: bytes, left: int)
    requires left <= 0
    ensures ParseCredential(s, c.flags.password, left) == Ok((None, left), s)
  {
  }

  lemma UserRead(c: Connect, rest: bytes, left: int)
    requires WellFormed(c)
    ensures ParseCredential(Field(c.userName) + rest, c.flags.userName, left) ==
      if !c.flags.userName then Ok((None, left), rest)
      else if left <= 0 then Ok((None, left), Field(c.userName) + rest)
      else if left < |c.userName.value| then Fail(LengthError)
      else Ok((c.userName, left - |c.userName.value|), rest)
  {
    CredentialRead(c.userName, rest, left);
  }

  lemma PassRead(c: Connect, rest: bytes, left: int)
    requires WellFormed(c)
    ensures ParseCredential(Field(c.password) + rest, c.flags.password, left) ==
      if !c.flags.password then Ok((None, left), rest)
      else if left <= 0 then Ok((None, left), Field(c.password) + rest)
      else if left < |c.password.value| then Fail(LengthError)
      else Ok((c.password, left - |c.password.value|), rest)
  {
    CredentialRead(c.password, rest, left);
  }

  lemma NotRead(c: Connect, rest: bytes)
    requires WellFormed(c)
    ensures [] + rest == rest
    ensures !c.flags.userName ==> Field(c.userName) + rest == rest
  {
  }

  lemma TailRead(c: Connect, bare: Connect, rest: bytes, left: int)
    requires WellFormed(c) && left >= |ConnectTail(c)|
    requires bare == c.(willTopic := None, willMsg := None, userName := None, password := None)
    ensures ParseConnectTail(ConnectTail(c) + rest, bare, left) == Ok(c, rest)
  {
    TailCounts(c, bare, rest, left);
    FieldSizes(c);
  }

  lemma FieldSizes(c: Connect)
    requires WellFormed(c)
    ensures |ConnectTail(c)| == Size(c.willTopic) + Size(c.willMsg) + Size(c.userName) + Size(c.password)
      + (if c.flags.willFlag then 4 else 0) + (if c.flags.userName then 2 else 0) + (if c.flags.password then 2 else 0)
  {
  }

  lemma LevelRead(c: Connect, rest: bytes)
    requires WellFormed(c)
    ensures ParseLevel(Level(c) + rest) == Ok((c.version, c.flags, c.keepAlive), rest)
  {
    var k := Two(c.keepAlive) + rest;
    var s := Level(c) + rest;
    Assoc([c.version, FlagsByte(c.flags)], Two(c.keepAlive), rest);
    assert s[1..][1..] == k;
    TwoRead(c.keepAlive, rest);
    FlagsRoundTrip(c.flags);
  }

  /** The bound on the client id. */
  predicate GoodId(c: Connect)
  {
    1 <= |c.id| <= 64
  }

  lemma ConnectBodyRead(c: Connect, rest: bytes)
    requires WellFormed(c)
    ensures ParseConnect(ConnectBody(c) + rest, |ConnectBody(c)|) ==
      if GoodId(c) then Ok(c, rest) else Fail(IdentifierRejected)
  {
    hide ParseConnect, ParseConnectTail, ConnectBody;
    var bare := c.(willTopic := None, willMsg := None, userName := None, password := None);
    BodySplit(c, rest);
    ConnectFromTail(c, bare, |ConnectBody(c)|, rest);
    TailRead(c, bare, rest, |ConnectBody(c)| - 2 - |c.protocol| - 4 - |c.id|);
  }

  /** Whatever length is announced, the fields up to the client id are read. */
  lemma ConnectFromTail(c: Connect, bare: Connect, n: nat, rest: bytes)
    requires WellFormed(c) && |c.protocol| + 4 <= n
    requires bare == c.(willTopic := None, willMsg := None, userName := None, password := None)
    ensures ParseConnect(ConnectBody(c) + rest, n) ==
      if GoodId(c) then ParseConnectTail(ConnectTail(c) + rest, bare, n - 2 - |c.protocol| - 4 - |c.id|)
      else Fail(IdentifierRejected)
  {
    hide ReadString, ParseLevel, ParseConnect, ParseConnectTail;
    var tail := ConnectTail(c) + rest;
    var fromId := Text(c.id) + tail;
    BodySplit(c, rest);
    TextRead(c.protocol, Level(c) + fromId);
    LevelRead(c, fromId);
    TextRead(c.id, tail);
    ConnectStages(ConnectBody(c) + rest, n, bare, Level(c) + fromId, fromId, tail);
  }

  lemma ConnectStages(s: bytes, length: nat, bare: Connect, r1: bytes, r2: bytes, r3: bytes)
    requires ReadString(s) == Ok(bare.protocol, r1) && |bare.protocol| + 4 <= length
    requires ParseLevel(r1) == Ok((bare.version, bare.flags, bare.keepAlive), r2)
    requires ReadString(r2) == Ok(bare.id, r3)
    requires bare.willTopic.None? && bare.willMsg.None? && bare.userName.None? && bare.password.None?
    ensures ParseConnect(s, length) ==
      if GoodId(bare) then ParseConnectTail(r3, bare, length - 2 - |bare.protocol| - 4 - |bare.id|)
      else Fail(IdentifierRejected)
  {
    hide ReadString, ParseLevel, ParseConnectTail;
  }

  lemma BodySplit(c: Connect, rest: bytes)
    requires WellFormed(c)
    ensures ConnectBody(c) + rest ==
      Text(c.protocol) + (Level(c) + (Text(c.id) + (ConnectTail(c) + rest)))
    ensures |ConnectBody(c)| == 2 + |c.protocol| + 4 + 2 + |c.id| + |ConnectTail(c)|
  {
    Assoc(Text(c.id), ConnectTail(c), rest);
    Assoc(Level(c), Text(c.id) + ConnectTail(c), rest);
    Assoc(Text(c.protocol), Level(c) + (Text(c.id) + ConnectTail(c)), rest);
  }

  /** Every well-formed CONNECT within the length bound is read back in full, and nothing after it, if and
      only if its client id has 1 to 64 bytes; else it is rejected for its identifier. */
  lemma ConnectParses(c: Connect, rest: bytes, maxLength: int)
    requires WellFormed(c)
    requires |ConnectBody(c)| <= MAX_READABLE && |ConnectBody(c)| <= maxLength
    ensures ParsePack(Packet(0x10, ConnectBody(c)) + rest, maxLength) ==
      if 1 <= |c.id| <= 64 then Ok(Pack(1, 0, 0, 0, |ConnectBody(c)|, ConnectVar(c)), rest) else Fail(IdentifierRejected)
  {
    ConnectBodyRead(c, rest);
    PacketParses(0x10, 1, 0, 0, 0, ConnectBody(c), rest, maxLength);
  }

  // ------------------------------------------------------------ topic lists

  /** Sections 3.8.3 and 3.10.3: topic filters, each with the QoS asked for or without. */
  function Filters(ts: seq<Topic>, withQos: bool): bytes
    requires ShortNames(ts, withQos)
  {
    if ts == [] then [] else
      Text(ts[0].name) + (if withQos then [ts[0].qos] else []) + Filters(ts[1..], withQos)
  }

  predicate ShortNames(ts: seq<Topic>, withQos: bool)
  {
    forall t :: t in ts ==> Short(t.name) && (!withQos ==> t.qos == 0)
  }

  /** Although the two id bytes are counted as payload, the loop reads exactly the topics: before each
      of them the count is above three, and after the last it is two. */
  lemma {:induction false} TopicsRead(ts: seq<Topic>, rest: bytes, withQos: bool)
    requires ShortNames(ts, withQos)
    ensures ReadTopics(Filters(ts, withQos) + rest, |Filters(ts, withQos)| + 2, withQos) == (ts, rest)
  {
    hide Filters, ReadTopics, ShortNames;
    if ts == [] {
      NoFilters(ts, rest, withQos);
      TopicsEnd(rest, 2, withQos);
    } else {
      FewerNames(ts, withQos);
      TopicsRead(ts[1..], rest, withQos);
      TopicSplit(ts, rest, withQos);
      var more := Filters(ts[1..], withQos) + rest;
      var left := |Filters(ts, withQos)| + 2;
      assert ts == [ts[0]] + ts[1..];
      if withQos {
        TopicWithQos(ts[0], more, left, ts[1..], rest);
      } else {
        assert [] + more == more;
        TopicWithoutQos(ts[0], more, left, ts[1..], rest);
      }
    }
  }

  lemma NoFilters(ts: seq<Topic>, rest: bytes, withQos: bool)
    requires ts == []
    ensures Filters(ts, withQos) == [] && Filters(ts, withQos) + rest == rest
  {
  }

  lemma FewerNames(ts: seq<Topic>, withQos: bool)
    requires ts != [] && ShortNames(ts, withQos)
    ensures ShortNames(ts[1..], withQos) && Short(ts[0].name) && (!withQos ==> ts[0].qos == 0)
  {
  }

  lemma TopicSplit(ts: seq<Topic>, rest: bytes, withQos: bool)
    requires ts != [] && ShortNames(ts, withQos)
    ensures
      var q: bytes := if withQos then [ts[0].qos] else [];
      var more := Filters(ts[1..], withQos);
      && Filters(ts, withQos) + rest == Text(ts[0].name) + (q + (more + rest))
      && |Filters(ts, withQos)| == 2 + |ts[0].name| + |q| + |more|
  {
    var q: bytes := if withQos then [ts[0].qos] else [];
    var more := Filters(ts[1..], withQos);
    assert Filters(ts, withQos) == Text(ts[0].name) + q + more;
    Assoc(Text(ts[0].name) + q, more, rest);
    Assoc(Text(ts[0].name), q, more + rest);
  }

  lemma NameRead(name: bytes, rest: bytes)
    requires Short(name)
    ensures
      var s := Text(name) + rest;
      && |s| >= 2 && Word(s[0], s[1]) == |name|
      && NameOf(s[2..], |name|) == name && After(s[2..], |name|) == rest
  {
    var s := Text(name) + rest;
    assert s[2..] == name + rest;
    assert (name + rest)[..|name|] == name && (name + rest)[|name|..] == rest;
  }

  lemma TopicWithQos(t: Topic, rest: bytes, left: int, ts: seq<Topic>, r: bytes)
    requires Short(t.name) && left > 3
    requires ReadTopics(rest, left - 2 - |t.name| - 1, true) == (ts, r)
    ensures ReadTopics(Text(t.name) + ([t.qos] + rest), left, true) == ([t] + ts, r)
  {
    var r0 := [t.qos] + rest;
    NameRead(t.name, r0);
    assert r0 != [] && r0[0] == t.qos && r0[1..] == rest;
    WithQos(Text(t.name) + r0, t, r0, left);
  }

  lemma WithQos(s: bytes, t: Topic, r0: bytes, left: int)
    requires left > 3 && |s| >= 2 && Word(s[0], s[1]) == |t.name|
    requires NameOf(s[2..], |t.name|) == t.name && After(s[2..], |t.name|) == r0
    requires r0 != [] && r0[0] == t.qos
    ensures
      var (ts, r) := ReadTopics(r0[1..], left - 2 - |t.name| - 1, true);
      ReadTopics(s, left, true) == ([t] + ts, r)
  {
    hide ReadTopics, NameOf, After, Word;
    TopicStep(s, left, true, t.name, r0);
  }

  lemma TopicWithoutQos(t: Topic, rest: bytes, left: int, ts: seq<Topic>, r: bytes)
    requires Short(t.name) && left > 3 && t.qos == 0
    requires ReadTopics(rest, left - 2 - |t.name|, false) == (ts, r)
    ensures ReadTopics(Text(t.name) + rest, left, false) == ([t] + ts, r)
  {
    NameRead(t.name, rest);
    TopicStep(Text(t.name) + rest, left, false, t.name, rest);
  }

  lemma TopicsParse(mid: nat, ts: seq<Topic>, rest: bytes, withQos: bool)
    requires mid < 65536 && ShortNames(ts, withQos)
    ensures
      var b := Two(mid) + Filters(ts, withQos);
      ParseTopics(b + rest, |b|, withQos) == Ok((mid, ts), rest)
  {
    var e := Filters(ts, withQos);
    TopicsRead(ts, rest, withQos);
    hide Filters, ReadTopics;
    Assoc(Two(mid), e, rest);
    TwoRead(mid, e + rest);
  }

  /** Every SUBSCRIBE within the length bound is read back topic by topic. */
  lemma SubscribeParses(mid: nat, ts: seq<Topic>, rest: bytes, maxLength: int)
    requires mid < 65536 && ShortNames(ts, true)
    requires |Two(mid) + Filters(ts, true)| <= MAX_READABLE
    requires |Two(mid) + Filters(ts, true)| <= maxLength
    ensures
      var b := Two(mid) + Filters(ts, true);
      ParsePack(Packet(0x82, b) + rest, maxLength) == Ok(Pack(8, 0, 1, 0, |b|, SubscribeVar(mid, ts)), rest)
  {
    hide Filters, Two, ParseTopics;
    var b := Two(mid) + Filters(ts, true);
    TopicsParse(mid, ts, rest, true);
    PacketParses(0x82, 8, 0, 1, 0, b, rest, maxLength);
  }

  /** Every UNSUBSCRIBE within the length bound is read back topic by topic. */
  lemma UnsubscribeParses(mid: nat, ts: seq<Topic>, rest: bytes, maxLength: int)
    requires mid < 65536 && ShortNames(ts, false)
    requires |Two(mid) + Filters(ts, false)| <= MAX_READABLE
    requires |Two(mid) + Filters(ts, false)| <= maxLength
    ensures
      var b := Two(mid) + Filters(ts, false);
      ParsePack(Packet(0xA2, b) + rest, maxLength) == Ok(Pack(10, 0, 1, 0, |b|, UnsubscribeVar(mid, ts)), rest)
  {
    hide Filters, Two, ParseTopics;
    var b := Two(mid) + Filters(ts, false);
    TopicsParse(mid, ts, rest, false);
    PacketParses(0xA2, 10, 0, 1, 0, b, rest, maxLength);
  }
}
