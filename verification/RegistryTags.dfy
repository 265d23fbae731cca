/** The tags of registry/encoding.go that carry metadata, endpoints and version of a registered service.
    Compression, hex and JSON are parameters; what is modelled is which tag is read by whom, in which
    format, and what comes back. */
module RegistryTags {
  import opened Values
  import opened Watcher

  type Pairs = map<string, string>

  /** Foreign encodings: zlib with hex, JSON of an endpoint, and JSON of key-value pairs. Unpacking what
      was never packed yields some string, often the empty one; reading it may yield nothing. */
  datatype Codec = Codec(
    pack: string -> string,
    unpack: string -> string,
    writeEndpoint: string -> Option<string>,
    readEndpoint: string -> Option<string>,
    writePairs: Pairs -> Option<string>,
    readPairs: string -> Option<Pairs>)

  // ------------------------------------------------------------ reading

  predicate IsKind(tag: string, kind: char)
  {
    |tag| > 0 && tag[0] == kind
  }

  /** The tags of one kind, in order. */
  function OfKind(tags: seq<string>, kind: char): seq<string>
  {
    if tags == [] then [] else
      var init, tag := tags[..|tags| - 1], tags[|tags| - 1];
      if IsKind(tag, kind) then OfKind(init, kind) + [tag] else OfKind(init, kind)
  }

  /** What a tag holds: plain text after "=", packed after "-", nothing in another format. */
  function Content(tag: string, unpack: string -> string): string
    requires |tag| >= 2
  {
    if tag[1] == '=' then tag[2..] else if tag[1] == '-' then unpack(tag[2..]) else ""
  }

  const NO_FORMAT: char := '\0'

  /** Progress of a reading loop: the format in force, and what was read. */
  datatype Reading<T> = Reading(ver: char, items: seq<T>)

  function Appended<T>(items: seq<T>, o: Option<T>): seq<T>
  {
    if o.Some? then items + [o.value] else items
  }

  /** One tag of the kind: skipped if its format is not the one in force, dropped if it cannot be read. */
  function ReadOne<T>(r: Reading<T>, tag: string, unpack: string -> string, parse: string -> Option<T>): Reading<T>
    requires |tag| >= 2
  {
    if r.ver != NO_FORMAT && tag[1] != r.ver then r
    else Reading(tag[1], Appended(r.items, parse(Content(tag, unpack))))
  }

  /** What a loop reads from its kind of tags; None where it indexes past the end of a one-letter tag. */
  function ReadTags<T>(tags: seq<string>, kind: char, unpack: string -> string, parse: string -> Option<T>): Option<Reading<T>>
  {
    if tags == [] then Some(Reading(NO_FORMAT, [])) else
      var init, tag := tags[..|tags| - 1], tags[|tags| - 1];
      var r := ReadTags(init, kind, unpack, parse);
      if r.None? || !IsKind(tag, kind) then r
      else if |tag| < 2 then None
      else Some(ReadOne(r.value, tag, unpack, parse))
  }

  /** A reading loop panics if and only if there is a tag that is just its letter. */
  lemma {:induction false} ReadPanicsIff<T>(tags: seq<string>, kind: char, unpack: string -> string, parse: string -> Option<T>)
    ensures ReadTags(tags, kind, unpack, parse).None? <==> [kind] in tags
  {
    if tags != [] {
      var init, tag := tags[..|tags| - 1], tags[|tags| - 1];
      assert tags == init + [tag];
      ReadPanicsIff(init, kind, unpack, parse);
      assert IsKind(tag, kind) && |tag| < 2 <==> tag == [kind];
    }
  }

  /** Tags of other kinds make no difference, wherever they stand. */
  lemma {:induction false} ReadsOwnKind<T>(tags: seq<string>, kind: char, unpack: string -> string, parse: string -> Option<T>)
    ensures ReadTags(tags, kind, unpack, parse) == ReadTags(OfKind(tags, kind), kind, unpack, parse)
  {
    if tags != [] {
      var init, tag := tags[..|tags| - 1], tags[|tags| - 1];
      ReadsOwnKind(init, kind, unpack, parse);
      var own := OfKind(init, kind);
      if IsKind(tag, kind) {
        assert (own + [tag])[..|own|] == own;
      }
    }
  }

  ghost predicate AllOfKind(tags: seq<string>, kind: char)
  {
    forall tag :: tag in tags ==> IsKind(tag, kind) && |tag| >= 2
  }

  /** The contents of the tags in one format, as far as they can be read. */
  function InFormat<T>(tags: seq<string>, ver: char, unpack: string -> string, parse: string -> Option<T>): seq<T>
  {
    if tags == [] then [] else
      var init, tag := tags[..|tags| - 1], tags[|tags| - 1];
      var items := InFormat(init, ver, unpack, parse);
      if |tag| >= 2 && tag[1] == ver then Appended(items, parse(Content(tag, unpack))) else items
  }

  /** The first format found decides: exactly the tags in it are read. */
  lemma {:induction false} FirstFormatDecides<T>(tags: seq<string>, kind: char, unpack: string -> string, parse: string -> Option<T>)
    requires AllOfKind(tags, kind) && tags != [] && tags[0][1] != NO_FORMAT
    ensures ReadTags(tags, kind, unpack, parse) == Some(Reading(tags[0][1], InFormat(tags, tags[0][1], unpack, parse)))
  {
    var init, tag := tags[..|tags| - 1], tags[|tags| - 1];
    assert tag in tags;
    if init != [] {
      assert tags == init + [tag];
      FirstFormatDecides(init, kind, unpack, parse);
    }
  }

  method DecodeEndpoints(tags: seq<string>, c: Codec) returns (en: Option<seq<string>>)
    ensures en.None? <==> "e" in tags
    ensures en.Some? ==> ReadTags(tags, 'e', c.unpack, c.readEndpoint).Some?
    ensures en.Some? ==> en.value == ReadTags(tags, 'e', c.unpack, c.readEndpoint).value.items
  {
    var list, ver := [], NO_FORMAT;
    ReadPanicsIff(tags, 'e', c.unpack, c.readEndpoint);
    for i := 0 to |tags|
      invariant ReadTags(tags[..i], 'e', c.unpack, c.readEndpoint) == Some(Reading(ver, list))
    {
      assert tags[..i + 1][..i] == tags[..i];
      var tag := tags[i];
      if |tag| == 0 || tag[0] != 'e' {
        continue;
      }
      if |tag| < 2 {
        assert tag == "e";
        return None;
      }
      if ver != NO_FORMAT && tag[1] != ver {
        continue;
      }
      var e := c.readEndpoint(Content(tag, c.unpack));
      if e.Some? {
        list := list + [e.value];
      }
      ver := tag[1];
    }
    assert tags[..|tags|] == tags;
    en := Some(list);
  }

  /** All pairs, later ones over earlier ones. */
  function Union(ms: seq<Pairs>): Pairs
  {
    if ms == [] then map[] else Union(ms[..|ms| - 1]) + ms[|ms| - 1]
  }

  lemma UnionAppend(ms: seq<Pairs>, o: Option<Pairs>)
    ensures Union(Appended(ms, o)) == if o.Some? then Union(ms) + o.value else Union(ms)
  {
    if o.Some? {
      assert (ms + [o.value])[..|ms|] == ms;
    }
  }

  method DecodeMetadata(tags: seq<string>, c: Codec) returns (md: Option<Pairs>)
    ensures md.None? <==> "t" in tags
    ensures md.Some? ==> ReadTags(tags, 't', c.unpack, c.readPairs).Some?
    ensures md.Some? ==> md.value == Union(ReadTags(tags, 't', c.unpack, c.readPairs).value.items)
  {
    hide Union;
    var all: Pairs := map[];
    var ver := NO_FORMAT;
    ghost var list: seq<Pairs> := [];
    assert Union(list) == all by { UnionOfNone(); }
    ReadPanicsIff(tags, 't', c.unpack, c.readPairs);
    for i := 0 to |tags|
      invariant ReadTags(tags[..i], 't', c.unpack, c.readPairs) == Some(Reading(ver, list))
      invariant all == Union(list)
    {
      assert tags[..i + 1][..i] == tags[..i];
      var tag := tags[i];
      if |tag| == 0 || tag[0] != 't' {
        continue;
      }
      if |tag| < 2 {
        assert tag == "t";
        return None;
      }
      if ver != NO_FORMAT && tag[1] != ver {
        continue;
      }
      var kv := c.readPairs(Content(tag, c.unpack));
      UnionAppend(list, kv);
      list := Appended(list, kv);
      if kv.Some? {
        all := all + kv.value;
      }
      ver := tag[1];
    }
    assert tags[..|tags|] == tags;
    md := Some(all);
  }

  lemma UnionOfNone()
    ensures Union([]) == map[]
  {
  }

  predicate IsVersion(tag: string)
  {
    |tag| >= 2 && tag[0] == 'v' && (tag[1] == '=' || tag[1] == '-')
  }

  predicate IsFirstVersion(tags: seq<string>, i: nat)
    requires i < |tags|
  {
    IsVersion(tags[i]) && forall j :: 0 <= j < i ==> !IsVersion(tags[j])
  }

  predicate NoneBefore(tags: seq<string>, i: nat)
    requires i < |tags|
  {
    forall j :: 0 <= j < i ==> !("v=" <= tags[j]) && !("v-" <= tags[j])
  }

  /** The first tag of the kind in a known format decides: plain after "=", packed after "-". */
  method DecodeVersion(tags: seq<string>, unpack: string -> string) returns (v: string, found: bool)
    ensures !found ==> v == "" && forall tag :: tag in tags ==> !IsVersion(tag)
    ensures found ==> exists i :: 0 <= i < |tags| && IsFirstVersion(tags, i) && v == Content(tags[i], unpack)
    ensures forall i :: 0 <= i < |tags| && "v=" <= tags[i] && NoneBefore(tags, i) ==> found && v == tags[i][2..]
    ensures forall i :: 0 <= i < |tags| && "v-" <= tags[i] && NoneBefore(tags, i) ==> found && v == unpack(tags[i][2..])
  {
    for i := 0 to |tags|
      invariant forall j :: 0 <= j < i ==> !IsVersion(tags[j])
    {
      var tag := tags[i];
      if |tag| < 2 || tag[0] != 'v' {
        continue;
      }
      if tag[1] == '=' {
        return tag[2..], true;
      }
      if tag[1] == '-' {
        return unpack(tag[2..]), true;
      }
    }
    return "", false;
  }

  /** Tags in the old, plain format. */
  function PlainTags(letter: char, texts: seq<string>): seq<string>
  {
    if texts == [] then [] else PlainTags(letter, texts[..|texts| - 1]) + [[letter, '='] + texts[|texts| - 1]]
  }

  function Parsed<T>(texts: seq<string>, parse: string -> Option<T>): seq<T>
  {
    if texts == [] then [] else
      var init, o := Parsed(texts[..|texts| - 1], parse), parse(texts[|texts| - 1]);
      if o.Some? then init + [o.value] else init
  }

  /** Plain tags are read as they are, without unpacking, and one that cannot be read is left out. */
  lemma {:induction false} PlainRead<T>(kind: char, texts: seq<string>, unpack: string -> string, parse: string -> Option<T>)
    ensures ReadTags(PlainTags(kind, texts), kind, unpack, parse).Some?
    ensures ReadTags(PlainTags(kind, texts), kind, unpack, parse).value ==
      Reading(if texts == [] then NO_FORMAT else '=', Parsed(texts, parse))
  {
    if texts != [] {
      var init, text := texts[..|texts| - 1], texts[|texts| - 1];
      PlainRead(kind, init, unpack, parse);
      var ts, tag := PlainTags(kind, init), [kind, '='] + text;
      assert (ts + [tag])[..|ts|] == ts;
      assert tag[2..] == text;
    }
  }

  // ------------------------------------------------------------ writing

  function Written(letter: char, b: Option<string>, pack: string -> string): seq<string>
  {
    if b.Some? then [[letter, '-'] + pack(b.value)] else []
  }

  function EndpointTags(en: seq<string>, c: Codec): seq<string>
  {
    if en == [] then [] else EndpointTags(en[..|en| - 1], c) + Written('e', c.writeEndpoint(en[|en| - 1]), c.pack)
  }

  function MetadataTags(md: Pairs, order: seq<string>, c: Codec): seq<string>
    requires forall k :: k in order ==> k in md
  {
    if order == [] then [] else
      var init, k := order[..|order| - 1], order[|order| - 1];
      MetadataTags(md, init, c) + Written('t', c.writePairs(map[k := md[k]]), c.pack)
  }

  function VersionTags(v: string, c: Codec): seq<string>
  {
    Written('v', Some(v), c.pack)
  }

  method EncodeEndpoints(en: seq<string>, c: Codec) returns (tags: seq<string>)
    ensures tags == EndpointTags(en, c)
  {
    tags := [];
    for i := 0 to |en|
      invariant tags == EndpointTags(en[..i], c)
    {
      assert en[..i + 1][..i] == en[..i];
      var b := c.writeEndpoint(en[i]);
      if b.Some? {
        tags := tags + ["e-" + c.pack(b.value)];
      }
    }
    assert en[..|en|] == en;
  }

  method EncodeMetadata(md: Pairs, c: Codec) returns (tags: seq<string>, ghost order: seq<string>)
    ensures IsOrder(order, md.Keys) && tags == MetadataTags(md, order, c)
  {
    tags, order := [], [];
    var todo := md.Keys;
    while todo != {}
      invariant todo <= md.Keys && IsOrder(order, md.Keys - todo)
      invariant tags == MetadataTags(md, order, c)
      decreases |todo|
    {
      var k :| k in todo;
      assert (order + [k])[..|order|] == order;
      var b := c.writePairs(map[k := md[k]]);
      if b.Some? {
        tags := tags + ["t-" + c.pack(b.value)];
      }
      order := order + [k];
      todo := todo - {k};
    }
  }

  // ------------------------------------------------------------ the round trip

  ghost predicate Unpacks(c: Codec)
  {
    forall b :: c.unpack(c.pack(b)) == b
  }

  /** JSON gives back the endpoints at hand. */
  ghost predicate EndpointsFaithful(c: Codec, en: seq<string>)
  {
    forall e :: e in en ==> c.writeEndpoint(e).Some? && c.readEndpoint(c.writeEndpoint(e).value) == Some(e)
  }

  /** And the pairs, one by one. */
  ghost predicate PairsFaithful(c: Codec, md: Pairs)
  {
    forall k :: k in md ==> OnePair(c, k, md[k])
  }

  ghost predicate OnePair(c: Codec, k: string, v: string)
  {
    var b := c.writePairs(map[k := v]);
    b.Some? && c.readPairs(b.value) == Some(map[k := v])
  }

  ghost predicate AllPacked(tags: seq<string>, kind: char)
  {
    forall tag :: tag in tags ==> |tag| >= 2 && tag[0] == kind && tag[1] == '-'
  }

  /** A packed tag more, an item more. */
  lemma OneMore<T>(tags: seq<string>, letter: char, b: string, c: Codec, parse: string -> Option<T>)
    requires Unpacks(c)
    ensures
      var more := Written(letter, Some(b), c.pack);
      InFormat(tags + more, '-', c.unpack, parse) == Appended(InFormat(tags, '-', c.unpack, parse), parse(b))
  {
    var tag := [letter, '-'] + c.pack(b);
    assert (tags + [tag])[..|tags|] == tags;
    assert tag[2..] == c.pack(b);
    assert c.unpack(c.pack(b)) == b;
  }

  lemma {:induction false} EndpointsRead(c: Codec, en: seq<string>)
    requires Unpacks(c) && EndpointsFaithful(c, en)
    ensures AllPacked(EndpointTags(en, c), 'e')
    ensures InFormat(EndpointTags(en, c), '-', c.unpack, c.readEndpoint) == en
  {
    if en != [] {
      var init, e := en[..|en| - 1], en[|en| - 1];
      assert en == init + [e];
      assert e in en;
      EndpointsRead(c, init);
      OneMore(EndpointTags(init, c), 'e', c.writeEndpoint(e).value, c, c.readEndpoint);
    }
  }

  /** The part of a map on the keys of a list. */
  function On(md: Pairs, keys: seq<string>): Pairs
    requires forall k :: k in keys ==> k in md
  {
    map k | k in keys :: md[k]
  }

  lemma {:induction false} MetadataPacked(c: Codec, md: Pairs, order: seq<string>)
    requires forall k :: k in order ==> k in md
    ensures AllPacked(MetadataTags(md, order, c), 't')
  {
    if order != [] {
      MetadataPacked(c, md, order[..|order| - 1]);
    }
  }

  lemma {:induction false} MetadataRead(c: Codec, md: Pairs, order: seq<string>)
    requires Unpacks(c) && PairsFaithful(c, md) && forall k :: k in order ==> k in md
    ensures Union(InFormat(MetadataTags(md, order, c), '-', c.unpack, c.readPairs)) == On(md, order)
  {
    hide InFormat, Unpacks, Union, PairsFaithful, OnePair, Written;
    if order == [] {
      NothingInFormat(c);
      UnionOfNone();
    } else {
      var init, k := order[..|order| - 1], order[|order| - 1];
      assert order == init + [k];
      MetadataRead(c, md, init);
      MetadataStep(c, md, k, MetadataTags(md, init, c));
      assert On(md, order) == On(md, init) + map[k := md[k]];
    }
  }

  lemma MetadataStep(c: Codec, md: Pairs, k: string, tags: seq<string>)
    requires Unpacks(c) && PairsFaithful(c, md) && k in md
    ensures
      var more := Written('t', c.writePairs(map[k := md[k]]), c.pack);
      Union(InFormat(tags + more, '-', c.unpack, c.readPairs)) ==
        Union(InFormat(tags, '-', c.unpack, c.readPairs)) + map[k := md[k]]
  {
    assert OnePair(c, k, md[k]);
    hide InFormat, Unpacks, Union, PairsFaithful;
    OneMore(tags, 't', c.writePairs(map[k := md[k]]).value, c, c.readPairs);
    UnionAppend(InFormat(tags, '-', c.unpack, c.readPairs), Some(map[k := md[k]]));
  }

  lemma NothingInFormat(c: Codec)
    ensures InFormat([], '-', c.unpack, c.readPairs) == []
  {
  }

  /** A loop reads exactly the packed contents where all its tags are packed. */
  lemma PackedRead<T>(tags: seq<string>, kind: char, unpack: string -> string, parse: string -> Option<T>)
    requires AllPacked(OfKind(tags, kind), kind)
    ensures [kind] !in tags && ReadTags(tags, kind, unpack, parse).Some?
    ensures ReadTags(tags, kind, unpack, parse).value.items == InFormat(OfKind(tags, kind), '-', unpack, parse)
  {
    ReadsOwnKind(tags, kind, unpack, parse);
    ReadPanicsIff(tags, kind, unpack, parse);
    if OfKind(tags, kind) != [] {
      FirstFormatDecides(OfKind(tags, kind), kind, unpack, parse);
    }
  }

  /** The tags of the three kinds are those written for a service, whatever else stands between them. */
  ghost predicate Carries(tags: seq<string>, c: Codec, md: Pairs, order: seq<string>, en: seq<string>, v: string)
    requires forall k :: k in order ==> k in md
  {
    && OfKind(tags, 't') == MetadataTags(md, order, c)
    && OfKind(tags, 'e') == EndpointTags(en, c)
    && OfKind(tags, 'v') == VersionTags(v, c)
  }

  /** From any list that carries a service, in whatever order its metadata was written, the decoders get
      back metadata, endpoints and version, and none of them panics. */
  method ReadBack(tags: seq<string>, c: Codec, ghost md: Pairs, ghost order: seq<string>, ghost en: seq<string>, ghost v: string)
    returns (md': Option<Pairs>, en': Option<seq<string>>, v': string, found: bool)
    requires Unpacks(c) && EndpointsFaithful(c, en) && PairsFaithful(c, md) && IsOrder(order, md.Keys)
    requires Carries(tags, c, md, order, en, v)
    ensures md' == Some(md) && en' == Some(en) && v' == v && found
  {
    hide ReadTags, InFormat, Union, PairsFaithful, EndpointsFaithful, MetadataTags, EndpointTags;
    MetadataPacked(c, md, order);
    MetadataRead(c, md, order);
    EndpointsRead(c, en);
    PackedRead(tags, 't', c.unpack, c.readPairs);
    PackedRead(tags, 'e', c.unpack, c.readEndpoint);
    assert On(md, order) == md;
    VersionRead(tags, c, v);
    md' := DecodeMetadata(tags, c);
    en' := DecodeEndpoints(tags, c);
    v', found := DecodeVersion(tags, c.unpack);
  }

  lemma VersionRead(tags: seq<string>, c: Codec, v: string)
    requires Unpacks(c) && OfKind(tags, 'v') == VersionTags(v, c)
    ensures exists tag :: tag in tags && IsVersion(tag)
    ensures forall tag :: tag in tags && IsVersion(tag) ==> Content(tag, c.unpack) == v
  {
    var tag := ['v', '-'] + c.pack(v);
    KindMembers(tags, 'v');
    assert tag in OfKind(tags, 'v');
    assert tag[2..] == c.pack(v);
    assert c.unpack(c.pack(v)) == v;
  }

  lemma {:induction false} KindMembers(tags: seq<string>, kind: char)
    ensures forall tag :: tag in OfKind(tags, kind) <==> tag in tags && IsKind(tag, kind)
  {
    if tags != [] {
      assert tags == tags[..|tags| - 1] + [tags[|tags| - 1]];
      KindMembers(tags[..|tags| - 1], kind);
    }
  }

  // ------------------------------------------------------------ what Register sends

  lemma {:induction false} KindOfConcat(a: seq<string>, b: seq<string>, kind: char)
    ensures OfKind(a + b, kind) == OfKind(a, kind) + OfKind(b, kind)
  {
    if b == [] {
      assert a + b == a;
    } else {
      assert (a + b)[..|a + b| - 1] == a + b[..|b| - 1];
      KindOfConcat(a, b[..|b| - 1], kind);
    }
  }

  lemma {:induction false} KindOfPacked(tags: seq<string>, kind: char, other: char)
    requires AllPacked(tags, kind)
    ensures OfKind(tags, other) == if kind == other then tags else []
  {
    if tags != [] {
      var init, tag := tags[..|tags| - 1], tags[|tags| - 1];
      assert tags == init + [tag];
      assert tag in tags;
      KindOfPacked(init, kind, other);
    }
  }

  lemma KindOfThree(t: seq<string>, e: seq<string>, w: seq<string>, kind: char)
    requires AllPacked(t, 't') && AllPacked(e, 'e') && AllPacked(w, 'v')
    ensures OfKind(t + e + w, kind) == if kind == 't' then t else if kind == 'e' then e else if kind == 'v' then w else []
  {
    hide OfKind, AllPacked;
    KindOfConcat(t + e, w, kind);
    KindOfConcat(t, e, kind);
    KindOfPacked(t, 't', kind);
    KindOfPacked(e, 'e', kind);
    KindOfPacked(w, 'v', kind);
  }

  /** What Register writes, a lookup reads back: metadata, endpoints in order, and version. */
  method RegisterAndRead(c: Codec, md: Pairs, en: seq<string>, v: string)
    returns (md': Option<Pairs>, en': Option<seq<string>>, v': string, found: bool)
    requires Unpacks(c) && EndpointsFaithful(c, en) && PairsFaithful(c, md)
    ensures md' == Some(md) && en' == Some(en) && v' == v && found
  {
    hide MetadataTags, EndpointTags, PairsFaithful, EndpointsFaithful, Unpacks;
    var meta, order := EncodeMetadata(md, c);
    var ends := EncodeEndpoints(en, c);
    var vers := ["v-" + c.pack(v)];
    MetadataPacked(c, md, order);
    EndpointsRead(c, en);
    KindOfThree(meta, ends, vers, 't');
    KindOfThree(meta, ends, vers, 'e');
    KindOfThree(meta, ends, vers, 'v');
    md', en', v', found := ReadBack(meta + ends + vers, c, md, order, en, v);
  }
}
