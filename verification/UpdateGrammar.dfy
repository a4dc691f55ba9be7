/**
 * The UPDATE encoding of section 4.3 of RFC 4271, what a message means in terms of its parts,
 * and which parts a damaged attribute can affect.
 */
module UpdateGrammar {
  import opened Base
  import opened Bits
  import opened Octets
  import opened Prefixes
  import opened Attributes
  import opened UpdateCodec
  import opened OpenCodec

  datatype Message = Message(withdrawn: Bytes, attrs: seq<WireAttr>, nlri: Bytes)

  // The extended length bit, the fourth from the top.
  predicate LongForm(flags: byte) {
    flags / 16 % 2 == 1
  }

  lemma ExtendedIsLong(flags: byte)
    ensures IsExtended(flags) <==> LongForm(flags)
  {
    assert Pow2(4) == 16;
    AndBit(flags, 4);
    ShiftDivides(flags, 4);
  }

  predicate ValidAttr(a: WireAttr) {
    |a.data| < if LongForm(a.flags) then 65536 else 256
  }

  predicate ValidAttrs(attrs: seq<WireAttr>) {
    forall i | 0 <= i < |attrs| :: ValidAttr(attrs[i])
  }

  predicate ValidMessage(m: Message) {
    |m.withdrawn| < 65536 && ValidAttrs(m.attrs) && |EncodeAttrs(m.attrs)| < 65536
  }

  function AttrSize(a: WireAttr): Bytes
    requires ValidAttr(a)
  {
    if LongForm(a.flags) then ToBe(|a.data|, 2) else [|a.data|]
  }

  function EncodeAttrs(attrs: seq<WireAttr>): Bytes
    requires ValidAttrs(attrs)
  {
    if attrs == [] then []
    else
      assert ValidAttr(attrs[0]);
      [attrs[0].flags, attrs[0].code] + (AttrSize(attrs[0]) + (attrs[0].data + EncodeAttrs(attrs[1..])))
  }

  function EncodeUpdate(m: Message): Bytes
    requires ValidMessage(m)
  {
    var attrs := EncodeAttrs(m.attrs);
    ToBe(|m.withdrawn|, 2) + (m.withdrawn + (ToBe(|attrs|, 2) + (attrs + m.nlri)))
  }

  /* ---------- the meaning of a message, attribute by attribute ---------- */

  function AbsorbList(attrs: seq<WireAttr>, p: Progress, asnLen: nat): Result<Progress>
    requires asnLen == 2 || asnLen == 4
  {
    if attrs == [] then Ok(p)
    else
      var q :- Absorbed(p, attrs[0], asnLen);
      AbsorbList(attrs[1..], q, asnLen)
  }

  function Interpret(m: Message, asnLen: nat): Result<Update>
    requires asnLen == 2 || asnLen == 4
  {
    var p :- AbsorbList(m.attrs, NOTHING, asnLen);
    Finished(Resolved(p), m.withdrawn, m.nlri)
  }

  /* ---------- framing: completeness ---------- */

  lemma FrameStep(a: WireAttr, rest: Bytes)
    requires ValidAttr(a)
    ensures AttrFrame([a.flags, a.code] + (AttrSize(a) + (a.data + rest))) == Ok((a, rest))
  {
    var size := AttrSize(a);
    TakeSplit([a.flags, a.code], size + (a.data + rest));
    TakeSplit(size, a.data + rest);
    TakeSplit(a.data, rest);
    ExtendedIsLong(a.flags);
    if LongForm(a.flags) {
      TwoOctets(|a.data|);
    }
  }

  lemma {:induction false} AttrsComplete(attrs: seq<WireAttr>, p: Progress, asnLen: nat)
    requires asnLen == 2 || asnLen == 4
    requires ValidAttrs(attrs)
    ensures AbsorbAll(EncodeAttrs(attrs), p, asnLen) == AbsorbList(attrs, p, asnLen)
  {
    if attrs != [] {
      var a, others := attrs[0], attrs[1..];
      assert ValidAttr(a);
      FrameStep(a, EncodeAttrs(others));
      var q := Absorbed(p, a, asnLen);
      if q.Ok? {
        AttrsComplete(others, q.value, asnLen);
      }
    }
  }

  // The decoder consumes every octet of an encoded message and finds exactly its parts.
  lemma UpdateComplete(m: Message, asnLen: nat)
    requires asnLen == 2 || asnLen == 4
    requires ValidMessage(m)
    ensures ParseUpdate(EncodeUpdate(m), asnLen) == Interpret(m, asnLen)
  {
    var attrs := EncodeAttrs(m.attrs);
    var tail := attrs + m.nlri;
    var body := ToBe(|attrs|, 2) + tail;
    TakeSplit(ToBe(|m.withdrawn|, 2), m.withdrawn + body);
    TwoOctets(|m.withdrawn|);
    TakeSplit(m.withdrawn, body);
    TakeSplit(ToBe(|attrs|, 2), tail);
    TwoOctets(|attrs|);
    TakeSplit(attrs, m.nlri);
    AttrsComplete(m.attrs, NOTHING, asnLen);
  }

  /* ---------- framing: soundness ---------- */

  lemma SizeOctets(size: Bytes)
    requires |size| == 2
    ensures U16(size[0], size[1]) < 65536 && ToBe(U16(size[0], size[1]), 2) == size
  {
    BeTwo(size);
    BeDigits(size);
  }

  lemma FrameSound(data: Bytes)
    requires AttrFrame(data).Ok?
    ensures var (a, rest) := AttrFrame(data).value;
            ValidAttr(a) && data == [a.flags, a.code] + (AttrSize(a) + (a.data + rest))
  {
    var (a, rest) := AttrFrame(data).value;
    var (head, body) := Take(data, 2).value;
    assert head == [a.flags, a.code];
    ExtendedIsLong(a.flags);
    if LongForm(a.flags) {
      var (size, tail) := Take(body, 2).value;
      SizeOctets(size);
      assert body == size + (a.data + rest);
    } else {
      var (size, tail) := Take(body, 1).value;
      assert size == [|a.data|];
      assert body == size + (a.data + rest);
    }
  }

  lemma AttrsCons(a: WireAttr, others: seq<WireAttr>)
    requires ValidAttr(a) && ValidAttrs(others)
    ensures ValidAttrs([a] + others)
    ensures EncodeAttrs([a] + others) == [a.flags, a.code] + (AttrSize(a) + (a.data + EncodeAttrs(others)))
  {
    assert ([a] + others)[1..] == others;
  }

  lemma {:induction false} AttrsSound(data: Bytes, p: Progress, asnLen: nat) returns (attrs: seq<WireAttr>)
    requires asnLen == 2 || asnLen == 4
    requires AbsorbAll(data, p, asnLen).Ok?
    ensures ValidAttrs(attrs) && EncodeAttrs(attrs) == data
    decreases |data|
  {
    if data == [] {
      attrs := [];
    } else {
      FrameSound(data);
      var (a, rest) := AttrFrame(data).value;
      var others := AttrsSound(rest, Absorbed(p, a, asnLen).value, asnLen);
      attrs := [a] + others;
      AttrsCons(a, others);
    }
  }

  // Every accepted body is an encoded message; nothing in it is skipped or read twice.
  lemma UpdateSound(data: Bytes, asnLen: nat) returns (m: Message)
    requires ParseUpdate(data, asnLen).Ok?
    ensures asnLen == 2 || asnLen == 4
    ensures ValidMessage(m) && EncodeUpdate(m) == data
    ensures Interpret(m, asnLen) == ParseUpdate(data, asnLen)
  {
    var (size1, body) := Take(data, 2).value;
    var (withdrawn, after) := Take(body, U16(size1[0], size1[1])).value;
    var (size2, tail) := Take(after, 2).value;
    var (raw, nlri) := Take(tail, U16(size2[0], size2[1])).value;
    var attrs := AttrsSound(raw, NOTHING, asnLen);
    m := Message(withdrawn, attrs, nlri);
    SizeOctets(size1);
    SizeOctets(size2);
    UpdateComplete(m, asnLen);
  }

  /* ---------- sources of routes ---------- */

  // A place in a message that carries routes: its label, and its routes if they can be decoded.
  datatype Source = Source(group: Label, routes: Result<Nlri>)

  // The attributes that carry routes of a known family, and those whose header is broken.
  function MpSources(attrs: seq<WireAttr>, code: byte): seq<Source> {
    if attrs == [] then []
    else
      MpSources(attrs[..|attrs| - 1], code) + SourceOf(attrs[|attrs| - 1], code)
  }

  function SourceOf(a: WireAttr, code: byte): seq<Source> {
    if a.code != code || !IsMultiProtocol(code) then []
    else match ReadMpHead(code, a.data)
      case Err(_) => []
      case Ok(head) => if KnownFamily(head) then [Source(LabelOf(head), DecodeNlri(code, head))] else []
  }

  // The next hop of the NEXT_HOP attribute that comes last.
  function LastNextHop(attrs: seq<WireAttr>, asnLen: nat): Hop
    requires asnLen == 2 || asnLen == 4
  {
    if attrs == [] then NoHop
    else if attrs[|attrs| - 1].code == 3 then HopOf(ContentOf(attrs[|attrs| - 1], asnLen))
    else LastNextHop(attrs[..|attrs| - 1], asnLen)
  }

  function PlainSource(data: Bytes, nextHop: Option<Hop>): seq<Source> {
    if data == [] then []
    else match UnicastRoutes(data, AFI_IPV4, nextHop)
      case Ok(routes) => [Source(Ipv4Unicast, Ok(UnicastNlri(routes)))]
      case Err(e) => [Source(Ipv4Unicast, Err(e))]
  }

  function Announced(m: Message, asnLen: nat): seq<Source>
    requires asnLen == 2 || asnLen == 4
  {
    MpSources(m.attrs, 14) + PlainSource(m.nlri, Some(LastNextHop(m.attrs, asnLen)))
  }

  function Withdrawn(m: Message): seq<Source> {
    MpSources(m.attrs, 15) + PlainSource(m.withdrawn, None)
  }

  predicate Readable(sources: seq<Source>) {
    forall i | 0 <= i < |sources| :: sources[i].routes.Ok?
  }

  // Sources filed by label: a later source replaces an earlier one with the same label.
  function FiledSources(sources: seq<Source>): map<Label, Nlri>
    requires Readable(sources)
  {
    if sources == [] then map[]
    else
      var s := sources[|sources| - 1];
      FiledSources(sources[..|sources| - 1])[s.group := s.routes.value]
  }

  lemma FiledAppend(sources: seq<Source>, s: Source)
    requires Readable(sources) && s.routes.Ok?
    ensures Readable(sources + [s])
    ensures FiledSources(sources + [s]) == FiledSources(sources)[s.group := s.routes.value]
  {
    assert (sources + [s])[..|sources|] == sources;
  }

  // What has been gathered after some attributes, in terms of those attributes: their routes ...
  predicate Files(p: Progress, up: seq<Source>, down: seq<Source>) {
    Readable(up) && p.announce == FiledSources(up) && Readable(down) && p.withdraw == FiledSources(down)
  }

  predicate RoutesGathered(p: Progress, attrs: seq<WireAttr>) {
    Files(p, MpSources(attrs, 14), MpSources(attrs, 15))
  }

  // ... and their values.
  predicate ValuesGathered(p: Progress, attrs: seq<WireAttr>, asnLen: nat)
    requires asnLen == 2 || asnLen == 4
  {
    && p.nextHop == LastNextHop(attrs, asnLen)
    && |p.attributes| == |attrs|
    && forall i | 0 <= i < |attrs| :: p.attributes[i] == AttrOf(attrs[i], asnLen)
  }

  predicate Gathered(p: Progress, attrs: seq<WireAttr>, asnLen: nat)
    requires asnLen == 2 || asnLen == 4
  {
    RoutesGathered(p, attrs) && ValuesGathered(p, attrs, asnLen)
  }

  predicate AttrReadable(a: WireAttr) {
    IsMultiProtocol(a.code) ==> ReadMpHead(a.code, a.data).Ok? && Readable(SourceOf(a, a.code))
  }

  lemma SourcesSnoc(attrs: seq<WireAttr>, a: WireAttr, code: byte)
    ensures MpSources(attrs + [a], code) == MpSources(attrs, code) + SourceOf(a, code)
  {
    assert (attrs + [a])[..|attrs|] == attrs;
  }

  function CarrySource(c: Option<Carry>, announced: bool): seq<Source> {
    if c.Some? && c.value.announced == announced then [Source(c.value.group, Ok(c.value.nlri))] else []
  }

  lemma CarriedSource(a: WireAttr)
    ensures Carried(a).Ok? <==> AttrReadable(a)
    ensures Carried(a).Ok? ==>
              && SourceOf(a, 14) == CarrySource(Carried(a).value, true)
              && SourceOf(a, 15) == CarrySource(Carried(a).value, false)
  {
    if IsMultiProtocol(a.code) && ReadMpHead(a.code, a.data).Ok? {
      var head := ReadMpHead(a.code, a.data).value;
      if KnownFamily(head) {
        assert SourceOf(a, a.code)[0].routes == DecodeNlri(a.code, head);
      }
    }
  }

  lemma GatherValues(p: Progress, attrs: seq<WireAttr>, a: WireAttr, asnLen: nat)
    requires asnLen == 2 || asnLen == 4
    requires ValuesGathered(p, attrs, asnLen) && Absorbed(p, a, asnLen).Ok?
    ensures ValuesGathered(Absorbed(p, a, asnLen).value, attrs + [a], asnLen)
  {
    assert (attrs + [a])[..|attrs|] == attrs;
    var q := Absorbed(p, a, asnLen).value;
    assert q.attributes == p.attributes + [AttrOf(a, asnLen)];
    assert q.nextHop == if a.code == 3 then HopOf(ContentOf(a, asnLen)) else p.nextHop;
  }

  lemma FiledPlus(sources: seq<Source>, c: Option<Carry>, announced: bool)
    requires Readable(sources)
    ensures Readable(sources + CarrySource(c, announced))
    ensures FiledSources(sources + CarrySource(c, announced))
         == if c.Some? && c.value.announced == announced then FiledSources(sources)[c.value.group := c.value.nlri]
            else FiledSources(sources)
  {
    if c.Some? && c.value.announced == announced {
      FiledAppend(sources, Source(c.value.group, Ok(c.value.nlri)));
    } else {
      NothingAdded(sources);
    }
  }

  lemma JoinFiles(p: Progress, c: Option<Carry>, up: seq<Source>, down: seq<Source>)
    requires Files(p, up, down)
    ensures Files(Joined(p, c), up + CarrySource(c, true), down + CarrySource(c, false))
  {
    FiledPlus(up, c, true);
    FiledPlus(down, c, false);
  }

  lemma JoinRoutes(p: Progress, attrs: seq<WireAttr>, a: WireAttr)
    requires RoutesGathered(p, attrs) && Carried(a).Ok?
    ensures RoutesGathered(Joined(p, Carried(a).value), attrs + [a])
  {
    SourcesSnoc(attrs, a, 14);
    SourcesSnoc(attrs, a, 15);
    CarriedSource(a);
    JoinFiles(p, Carried(a).value, MpSources(attrs, 14), MpSources(attrs, 15));
  }

  lemma NothingAdded<T>(s: seq<T>)
    ensures s + [] == s
  {
  }

  lemma NotedRoutes(p: Progress, attrs: seq<WireAttr>, a: WireAttr, asnLen: nat)
    requires asnLen == 2 || asnLen == 4
    requires RoutesGathered(p, attrs)
    ensures RoutesGathered(Noted(p, a, asnLen), attrs)
  {
  }

  lemma GatherOne(p: Progress, attrs: seq<WireAttr>, a: WireAttr, asnLen: nat)
    requires asnLen == 2 || asnLen == 4
    requires Gathered(p, attrs, asnLen)
    ensures Absorbed(p, a, asnLen).Ok? <==> AttrReadable(a)
    ensures AttrReadable(a) ==> Gathered(Absorbed(p, a, asnLen).value, attrs + [a], asnLen)
  {
    CarriedSource(a);
    if AttrReadable(a) {
      GatherValues(p, attrs, a, asnLen);
      NotedRoutes(p, attrs, a, asnLen);
      JoinRoutes(Noted(p, a, asnLen), attrs, a);
    }
  }

  predicate AllReadable(attrs: seq<WireAttr>) {
    forall i | 0 <= i < |attrs| :: AttrReadable(attrs[i])
  }

  lemma {:induction false} GatherAll(p: Progress, done: seq<WireAttr>, attrs: seq<WireAttr>, asnLen: nat)
    requires asnLen == 2 || asnLen == 4
    requires Gathered(p, done, asnLen)
    ensures AbsorbList(attrs, p, asnLen).Ok? <==> AllReadable(attrs)
    ensures AbsorbList(attrs, p, asnLen).Ok? ==> Gathered(AbsorbList(attrs, p, asnLen).value, done + attrs, asnLen)
    decreases |attrs|
  {
    if attrs == [] {
      NothingAdded(done);
    } else {
      var a, others := attrs[0], attrs[1..];
      GatherOne(p, done, a, asnLen);
      ReadableSplit(attrs);
      if AttrReadable(a) {
        GatherAll(Absorbed(p, a, asnLen).value, done + [a], others, asnLen);
        MoveOne(done, attrs);
      }
    }
  }

  lemma MoveOne<T>(front: seq<T>, back: seq<T>)
    requires back != []
    ensures front + [back[0]] + back[1..] == front + back
  {
  }

  lemma ReadableSplit(attrs: seq<WireAttr>)
    requires attrs != []
    ensures AllReadable(attrs) <==> AttrReadable(attrs[0]) && AllReadable(attrs[1..])
  {
    assert attrs == [attrs[0]] + attrs[1..];
    ReadableCons(attrs[0], attrs[1..]);
  }

  lemma ReadableCons(a: WireAttr, others: seq<WireAttr>)
    ensures AllReadable([a] + others) <==> AttrReadable(a) && AllReadable(others)
  {
    if AllReadable([a] + others) {
      assert AttrReadable(([a] + others)[0]);
      assert forall i | 0 <= i < |others| :: others[i] == ([a] + others)[i + 1];
    }
  }

  lemma {:induction false} ReadableSources(attrs: seq<WireAttr>, code: byte)
    requires IsMultiProtocol(code) && AllReadable(attrs)
    ensures Readable(MpSources(attrs, code))
  {
    if attrs != [] {
      ReadableSources(attrs[..|attrs| - 1], code);
      assert AttrReadable(attrs[|attrs| - 1]);
    }
  }

  // A message is accepted exactly when every attribute header that announces routes can be read
  // and every source of routes can be decoded; then each label has the routes of its last source.
  lemma MessageMeaning(m: Message, asnLen: nat)
    requires asnLen == 2 || asnLen == 4
    ensures Interpret(m, asnLen).Ok?
       <==> AllReadable(m.attrs) && Readable(Announced(m, asnLen)) && Readable(Withdrawn(m))
    ensures Interpret(m, asnLen).Ok? ==>
              && Interpret(m, asnLen).value.announce == FiledSources(Announced(m, asnLen))
              && Interpret(m, asnLen).value.withdraw == FiledSources(Withdrawn(m))
  {
    GatherAll(NOTHING, [], m.attrs, asnLen);
    assert [] + m.attrs == m.attrs;
    var r := AbsorbList(m.attrs, NOTHING, asnLen);
    if r.Ok? {
      FinishedMeaning(m, r.value, asnLen);
    }
  }

  lemma FinishedMeaning(m: Message, p: Progress, asnLen: nat)
    requires asnLen == 2 || asnLen == 4
    requires Gathered(p, m.attrs, asnLen)
    ensures var r := Finished(Resolved(p), m.withdrawn, m.nlri);
            && (r.Ok? <==> Readable(Announced(m, asnLen)) && Readable(Withdrawn(m)))
            && (r.Ok? ==> r.value.announce == FiledSources(Announced(m, asnLen))
                          && r.value.withdraw == FiledSources(Withdrawn(m)))
  {
    PlainFiled(MpSources(m.attrs, 14), m.nlri, Some(LastNextHop(m.attrs, asnLen)));
    PlainFiled(MpSources(m.attrs, 15), m.withdrawn, None);
  }

  lemma PlainFiled(sources: seq<Source>, data: Bytes, nextHop: Option<Hop>)
    requires Readable(sources)
    ensures var r := WithPlain(FiledSources(sources), data, nextHop);
            var all := sources + PlainSource(data, nextHop);
            (r.Ok? <==> Readable(all)) && (r.Ok? ==> r.value == FiledSources(all))
  {
    if data == [] {
      NothingAdded(sources);
    } else if UnicastRoutes(data, AFI_IPV4, nextHop).Ok? {
      FiledAppend(sources, PlainSource(data, nextHop)[0]);
    } else {
      assert (sources + PlainSource(data, nextHop))[|sources|].routes.Err?;
    }
  }
}
