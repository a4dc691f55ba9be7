/** Whole path attribute values: what each code may carry, and that the decoder reads exactly that. */
module AttributeValues {
  import opened Base
  import opened Bits
  import opened Octets
  import opened Prefixes
  import opened Attributes
  import opened AttributeGrammar

  /* ---------- paths ---------- */

  lemma {:induction false} NumbersSound(raw: Bytes, width: nat)
    requires width > 0 && |raw| % width == 0
    ensures ValidNumbers(Numbers(Chunks(raw, width)), width)
    ensures EncodeNumbers(Numbers(Chunks(raw, width)), width) == raw
    decreases |raw|
  {
    hide BeValue, ToBe;
    if |raw| >= width {
      var head, rest := raw[..width], raw[width..];
      StepDown(|raw|, width);
      NumbersSound(rest, width);
      BeDigits(head);
      assert raw == head + rest;
      ChunkStep(head, rest, width);
      NumbersCons(BeValue(head), Numbers(Chunks(rest, width)), width);
    } else {
      WholeOrNothing(|raw|, width);
      assert Numbers(Chunks(raw, width)) == [];
    }
  }

  lemma WholeOrNothing(a: nat, n: nat)
    requires a < n && a % n == 0
    ensures a == 0
  {
    DivMod(a, n, 0, a);
  }

  lemma NumbersCons(v: nat, others: seq<nat>, width: nat)
    requires v < Pow256(width) && ValidNumbers(others, width)
    ensures ValidNumbers([v] + others, width)
    ensures EncodeNumbers([v] + others, width) == ToBe(v, width) + EncodeNumbers(others, width)
  {
    assert ([v] + others)[1..] == others;
  }

  lemma Multiple(count: nat, width: nat)
    requires width > 0
    ensures count * width % width == 0 && count * width / width == count
  {
    DivMod(count * width, width, count, 0);
  }

  lemma SegmentCons(s: Segment, others: seq<Segment>, width: nat)
    requires |s.asns| < 256 && ValidNumbers(s.asns, width) && ValidSegments(others, width)
    ensures ValidSegments([s] + others, width)
    ensures EncodeSegments([s] + others, width)
         == [s.kind, |s.asns|] + (EncodeNumbers(s.asns, width) + EncodeSegments(others, width))
  {
    assert ([s] + others)[1..] == others;
  }

  // Every path that is accepted is an encoded one.
  lemma {:induction false} SegmentsSound(data: Bytes, width: nat)
    requires width > 0 && Segments(data, width).Ok?
    ensures ValidSegments(Segments(data, width).value, width)
    ensures EncodeSegments(Segments(data, width).value, width) == data
    decreases |data|
  {
    hide EncodeSegments, ValidSegments;
    if data == [] {
      NoSegments(width);
    } else {
      var (head, body) := Take(data, 2).value;
      var (raw, rest) := Take(body, head[1] * width).value;
      SegmentsSound(rest, width);
      Multiple(head[1], width);
      ChunksSound(raw, width);
      NumbersSound(raw, width);
      var s := Segment(head[0], Numbers(Chunks(raw, width)));
      SegmentCons(s, Segments(rest, width).value, width);
      assert head == [s.kind, |s.asns|];
      assert data == head + (raw + rest);
    }
  }

  lemma NoSegments(width: nat)
    ensures ValidSegments([], width) && EncodeSegments([], width) == []
  {
  }

  /* ---------- values ---------- */

  datatype WireValue =
    | WOrigin(origin: byte)
    | WPath(path: seq<Segment>)
    | WAddress(octets: Bytes)
    | WNumber(number: nat)
    | WPresence
    | WAggregator(asn: nat, router: Bytes)
    | WCommunities(communities: seq<Community>)
    | WClusters(clusters: seq<Bytes>)
    | WActions(actions: seq<WireAction>)
    | WActions6(actions6: seq<WireAction6>)

  function PathWidth(code: byte, asnLen: nat): nat {
    if code == 17 then 4 else asnLen
  }

  // What an attribute of a code may hold; the two multiprotocol codes are not among these.
  predicate ValidValue(code: byte, v: WireValue, asnLen: nat) {
    match v
    case WOrigin(_) => code == 1
    case WPath(path) => (code == 2 || code == 17) && ValidSegments(path, PathWidth(code, asnLen))
    case WAddress(octets) => (code == 3 || code == 9) && |octets| == 4
    case WNumber(n) => (code == 4 || code == 5) && Fits32(n)
    case WPresence => code == 6
    case WAggregator(asn, router) =>
      ((code == 7 && Fits16(asn)) || (code == 18 && Fits32(asn))) && |router| == 4
    case WCommunities(cs) =>
      (code == 8 && forall c | c in cs :: ValidStandard(c)) || (code == 32 && forall c | c in cs :: ValidLarge(c))
    case WClusters(cs) => code == 10 && AllSized(cs, 4)
    case WActions(acts) => code == 16 && forall a | a in acts :: ValidAction(a)
    case WActions6(acts) => code == 25 && forall a | a in acts :: ValidAction6(a)
  }

  function StandardOctets(c: Community): Bytes
    requires ValidStandard(c)
  {
    ToBe(c.value, 4)
  }

  function EncodeWireValue(code: byte, v: WireValue, asnLen: nat): Bytes
    requires ValidValue(code, v, asnLen)
  {
    match v
    case WOrigin(origin) => [origin]
    case WPath(path) => EncodeSegments(path, PathWidth(code, asnLen))
    case WAddress(octets) => octets
    case WNumber(n) => ToBe(n, 4)
    case WPresence => []
    case WAggregator(asn, router) => ToBe(asn, if code == 7 then 2 else 4) + router
    case WCommunities(cs) => if code == 8 then Laid(cs, StandardOctets) else Laid(cs, LargeOctets)
    case WClusters(cs) => Concat(cs)
    case WActions(acts) => Laid(acts, EncodeAction)
    case WActions6(acts) => Laid(acts, EncodeAction6)
  }

  function LargeOctets(c: Community): Bytes
    requires ValidLarge(c)
  {
    EncodeLarge(c)
  }

  function AddressHop(octets: Bytes): Hop
    requires |octets| == 4
  {
    Hop4(octets)
  }

  function ShownValue(code: byte, v: WireValue, asnLen: nat): AttrValue
    requires ValidValue(code, v, asnLen)
  {
    match v
    case WOrigin(origin) => Origin(origin)
    case WPath(path) => AsPath(path)
    case WAddress(octets) => Address(Hop4(octets))
    case WNumber(n) => Number(n)
    case WPresence => Marked
    case WAggregator(asn, router) => Aggregator(asn, Hop4(router))
    case WCommunities(cs) => Communities(cs)
    case WClusters(cs) => ClusterList(Mapped(cs, AddressHop))
    case WActions(acts) => ExtendedCommunities(Mapped(acts, ShownAction))
    case WActions6(acts) => ExtendedCommunities(Mapped(acts, ShownAction6))
  }

  /* ---------- every encoded value is read ---------- */

  function Itself(c: Community): Community {
    c
  }

  lemma MappedItself(cs: seq<Community>)
    ensures Mapped(cs, Itself) == cs
  {
    assert forall i | 0 <= i < |cs| :: Mapped(cs, Itself)[i] == Itself(cs[i]) == cs[i];
  }

  lemma AddressHops(cs: seq<Bytes>)
    requires AllSized(cs, 4)
    ensures forall c | c in cs :: |c| == 4
    ensures MapChunks(cs, 4, NextHop) == Mapped(cs, AddressHop)
  {
    var hops := MapChunks(cs, 4, NextHop);
    forall i | 0 <= i < |cs| ensures |cs[i]| == 4 && hops[i] == AddressHop(cs[i]) {
      FourOctets(cs[i]);
    }
    assert hops == Mapped(cs, AddressHop);
  }

  lemma FourOctets(c: Bytes)
    requires |c| == 4
    ensures NextHop(c) == AddressHop(c)
  {
  }

  lemma StandardsComplete(cs: seq<Community>)
    requires forall c | c in cs :: ValidStandard(c)
    ensures |Laid(cs, StandardOctets)| % 4 == 0
    ensures MapChunks(Chunks(Laid(cs, StandardOctets), 4), 4, StandardCommunity) == cs
  {
    forall c | c in cs ensures StandardCommunity(StandardOctets(c)) == Itself(c) {
      StandardComplete(c);
    }
    LaidComplete(cs, StandardOctets, 4, StandardCommunity, Itself);
    MappedItself(cs);
  }

  lemma LargesComplete(cs: seq<Community>)
    requires forall c | c in cs :: ValidLarge(c)
    ensures |Laid(cs, LargeOctets)| % 12 == 0
    ensures MapChunks(Chunks(Laid(cs, LargeOctets), 12), 12, LargeCommunity) == cs
  {
    hide LargeCommunity, EncodeLarge;
    forall c | c in cs ensures LargeCommunity(LargeOctets(c)) == Itself(c) {
      LargeComplete(c);
    }
    LaidComplete(cs, LargeOctets, 12, LargeCommunity, Itself);
    MappedItself(cs);
  }

  lemma ActionsComplete(acts: seq<WireAction>)
    requires forall a | a in acts :: ValidAction(a)
    ensures |Laid(acts, EncodeAction)| % 8 == 0
    ensures MapChunks(Chunks(Laid(acts, EncodeAction), 8), 8, ExtendedCommunity) == Mapped(acts, ShownAction)
  {
    hide ExtendedCommunity, EncodeAction, ShownAction, ValidAction;
    forall a | a in acts ensures ExtendedCommunity(EncodeAction(a)) == ShownAction(a) {
      ActionComplete(a);
    }
    LaidComplete(acts, EncodeAction, 8, ExtendedCommunity, ShownAction);
  }

  lemma Actions6Complete(acts: seq<WireAction6>)
    requires forall a | a in acts :: ValidAction6(a)
    ensures |Laid(acts, EncodeAction6)| % 20 == 0
    ensures MapChunks(Chunks(Laid(acts, EncodeAction6), 20), 20, ExtendedCommunity6) == Mapped(acts, ShownAction6)
  {
    hide ExtendedCommunity6, EncodeAction6, ShownAction6, ValidAction6;
    forall a | a in acts ensures ExtendedCommunity6(EncodeAction6(a)) == ShownAction6(a) {
      Action6Complete(a);
    }
    LaidComplete(acts, EncodeAction6, 20, ExtendedCommunity6, ShownAction6);
  }

  lemma ClustersComplete(cs: seq<Bytes>)
    requires AllSized(cs, 4)
    ensures |Concat(cs)| % 4 == 0
    ensures MapChunks(Chunks(Concat(cs), 4), 4, NextHop) == Mapped(cs, AddressHop)
  {
    hide NextHop, AddressHop;
    ChunksComplete(cs, 4);
    ConcatLength(cs, 4);
    AddressHops(cs);
  }

  lemma AggregatorComplete(asn: Bytes, router: Bytes)
    requires |router| == 4
    ensures (asn + router)[..|asn + router| - 4] == asn && NextHop((asn + router)[|asn + router| - 4..]) == Hop4(router)
  {
    assert (asn + router)[|asn|..] == router;
  }

  // Every value a code may hold is decoded to what it shows.
  lemma ValueComplete(code: byte, v: WireValue, asnLen: nat)
    requires (asnLen == 2 || asnLen == 4) && ValidValue(code, v, asnLen)
    ensures Decoded(code, EncodeWireValue(code, v, asnLen), asnLen) == Ok(ShownValue(code, v, asnLen))
  {
    hide BeValue, ToBe, Segments, Chunks, MapChunks, Laid, Mapped, Concat, ReadMpHead;
    hide ExtendedCommunity, ExtendedCommunity6, ValidAction, ValidAction6, EncodeSegments, ValidSegments;
    match v
    case WOrigin(_) =>
    case WPath(path) => SegmentsRoundTrip(path, PathWidth(code, asnLen));
    case WAddress(_) =>
    case WNumber(n) => ReadBack(n);
    case WPresence =>
    case WAggregator(asn, router) =>
      ReadBack(asn);
      AggregatorComplete(ToBe(asn, if code == 7 then 2 else 4), router);
    case WCommunities(cs) =>
      if code == 8 {
        StandardsComplete(cs);
      } else {
        LargesComplete(cs);
      }
    case WClusters(cs) => ClustersComplete(cs);
    case WActions(acts) => ActionsComplete(acts);
    case WActions6(acts) => Actions6Complete(acts);
  }

  /* ---------- every value that is read is an encoded one ---------- */

  lemma StandardsSound(data: Bytes)
    requires |data| % 4 == 0
    ensures var cs := MapChunks(Chunks(data, 4), 4, StandardCommunity);
            (forall c | c in cs :: ValidStandard(c)) && Laid(cs, StandardOctets) == data
  {
    forall d: Bytes | |d| == 4
      ensures ValidStandard(StandardCommunity(d)) && StandardOctets(StandardCommunity(d)) == d
    {
      StandardSound(d);
    }
    hide StandardCommunity, ValidStandard;
    LaidSound(data, 4, StandardCommunity, StandardOctets, StandardCommunity, Itself);
  }

  lemma LargesSound(data: Bytes)
    requires |data| % 12 == 0
    ensures var cs := MapChunks(Chunks(data, 12), 12, LargeCommunity);
            (forall c | c in cs :: ValidLarge(c)) && Laid(cs, LargeOctets) == data
  {
    forall d: Bytes | |d| == 12
      ensures ValidLarge(LargeCommunity(d)) && LargeOctets(LargeCommunity(d)) == d
    {
      LargeSound(d);
    }
    hide LargeCommunity, ValidLarge, LargeOctets;
    LaidSound(data, 12, LargeCommunity, LargeOctets, LargeCommunity, Itself);
  }

  lemma ActionsSound(data: Bytes)
    requires |data| % 8 == 0
    ensures var acts := MapChunks(Chunks(data, 8), 8, ActionIn);
            && (forall a | a in acts :: ValidAction(a)) && Laid(acts, EncodeAction) == data
            && MapChunks(Chunks(data, 8), 8, ExtendedCommunity) == Mapped(acts, ShownAction)
  {
    hide ExtendedCommunity, EncodeAction, ShownAction, ValidAction, ActionIn;
    forall d: Bytes | |d| == 8
      ensures ValidAction(ActionIn(d)) && EncodeAction(ActionIn(d)) == d
      ensures ExtendedCommunity(d) == ShownAction(ActionIn(d))
    {
      ActionSound(d);
    }
    LaidSound(data, 8, ActionIn, EncodeAction, ExtendedCommunity, ShownAction);
  }

  lemma Actions6Sound(data: Bytes)
    requires |data| % 20 == 0
    ensures var acts := MapChunks(Chunks(data, 20), 20, Action6In);
            && (forall a | a in acts :: ValidAction6(a)) && Laid(acts, EncodeAction6) == data
            && MapChunks(Chunks(data, 20), 20, ExtendedCommunity6) == Mapped(acts, ShownAction6)
  {
    hide ExtendedCommunity6, EncodeAction6, ShownAction6, ValidAction6, Action6In;
    forall d: Bytes | |d| == 20
      ensures ValidAction6(Action6In(d)) && EncodeAction6(Action6In(d)) == d
      ensures ExtendedCommunity6(d) == ShownAction6(Action6In(d))
    {
      Action6Sound(d);
    }
    LaidSound(data, 20, Action6In, EncodeAction6, ExtendedCommunity6, ShownAction6);
  }

  lemma ClustersSound(data: Bytes)
    requires |data| % 4 == 0
    ensures var cs := Chunks(data, 4);
            AllSized(cs, 4) && Concat(cs) == data && MapChunks(cs, 4, NextHop) == Mapped(cs, AddressHop)
  {
    hide NextHop, AddressHop;
    ChunksSound(data, 4);
    AddressHops(Chunks(data, 4));
  }

  predicate IsList(code: byte) {
    code == 8 || code == 10 || code == 16 || code == 25 || code == 32
  }

  lemma CommunitiesSound(code: byte, data: Bytes, asnLen: nat) returns (v: WireValue)
    requires (asnLen == 2 || asnLen == 4) && (code == 8 || code == 10 || code == 32)
    requires Decoded(code, data, asnLen).Ok?
    ensures ValidValue(code, v, asnLen) && EncodeWireValue(code, v, asnLen) == data
    ensures Decoded(code, data, asnLen) == Ok(ShownValue(code, v, asnLen))
  {
    hide BeValue, ToBe, Segments, Chunks, MapChunks, Laid, Mapped, Concat, ReadMpHead, NextHop, AddressHop, AllSized;
    hide ExtendedCommunity, ExtendedCommunity6, ValidAction, ValidAction6, EncodeSegments, ValidSegments;
    hide LargeCommunity, ValidLarge, ValidStandard, StandardCommunity, StandardOctets, LargeOctets;
    if code == 8 {
      v := WCommunities(MapChunks(Chunks(data, 4), 4, StandardCommunity));
      StandardsSound(data);
    } else if code == 10 {
      v := WClusters(Chunks(data, 4));
      ClustersSound(data);
    } else {
      v := WCommunities(MapChunks(Chunks(data, 12), 12, LargeCommunity));
      LargesSound(data);
    }
  }

  lemma ExtendedSound(code: byte, data: Bytes, asnLen: nat) returns (v: WireValue)
    requires (asnLen == 2 || asnLen == 4) && (code == 16 || code == 25)
    requires Decoded(code, data, asnLen).Ok?
    ensures ValidValue(code, v, asnLen) && EncodeWireValue(code, v, asnLen) == data
    ensures Decoded(code, data, asnLen) == Ok(ShownValue(code, v, asnLen))
  {
    hide BeValue, ToBe, Segments, Chunks, MapChunks, Laid, Mapped, Concat, ReadMpHead, NextHop, AddressHop, AllSized;
    hide ExtendedCommunity, ExtendedCommunity6, ValidAction, ValidAction6, EncodeSegments, ValidSegments;
    hide LargeCommunity, ValidLarge, ValidStandard, StandardCommunity, StandardOctets, LargeOctets;
    if code == 16 {
      v := WActions(MapChunks(Chunks(data, 8), 8, ActionIn));
      ActionsSound(data);
    } else {
      v := WActions6(MapChunks(Chunks(data, 20), 20, Action6In));
      Actions6Sound(data);
    }
  }

  lemma AggregatorSound(code: byte, data: Bytes, asnLen: nat) returns (v: WireValue)
    requires (asnLen == 2 || asnLen == 4) && (code == 7 || code == 18)
    requires Decoded(code, data, asnLen).Ok?
    ensures ValidValue(code, v, asnLen) && EncodeWireValue(code, v, asnLen) == data
    ensures Decoded(code, data, asnLen) == Ok(ShownValue(code, v, asnLen))
  {
    hide BeValue, ToBe, Segments, Chunks, MapChunks, ReadMpHead, EncodeSegments, ValidSegments;
    var n := |data| - 4;
    v := WAggregator(BeValue(data[..n]), data[n..]);
    ReadFrom(data[..n]);
    assert data == data[..n] + data[n..];
  }

  lemma SingleSound(code: byte, data: Bytes, asnLen: nat) returns (v: WireValue)
    requires (asnLen == 2 || asnLen == 4) && code != 14 && code != 15 && !IsList(code)
    requires Decoded(code, data, asnLen).Ok?
    ensures ValidValue(code, v, asnLen) && EncodeWireValue(code, v, asnLen) == data
    ensures Decoded(code, data, asnLen) == Ok(ShownValue(code, v, asnLen))
  {
    hide BeValue, ToBe, Segments, Chunks, MapChunks, ReadMpHead, EncodeSegments, ValidSegments;
    if code == 1 {
      v := WOrigin(data[0]);
    } else if code == 2 || code == 17 {
      v := WPath(Segments(data, PathWidth(code, asnLen)).value);
      SegmentsSound(data, PathWidth(code, asnLen));
    } else if code == 3 || code == 9 {
      v := WAddress(data);
    } else if code == 4 || code == 5 {
      v := WNumber(BeValue(data));
      ReadFrom(data);
    } else if code == 6 {
      v := WPresence;
    } else {
      v := AggregatorSound(code, data, asnLen);
    }
  }

  // Every value that is decoded is one that its code may hold, in its encoding.
  lemma ValueSound(code: byte, data: Bytes, asnLen: nat) returns (v: WireValue)
    requires (asnLen == 2 || asnLen == 4) && code != 14 && code != 15
    requires Decoded(code, data, asnLen).Ok?
    ensures ValidValue(code, v, asnLen) && EncodeWireValue(code, v, asnLen) == data
    ensures Decoded(code, data, asnLen) == Ok(ShownValue(code, v, asnLen))
  {
    hide ValidValue, EncodeWireValue, Decoded, ShownValue;
    if code == 16 || code == 25 {
      v := ExtendedSound(code, data, asnLen);
    } else if IsList(code) {
      v := CommunitiesSound(code, data, asnLen);
    } else {
      v := SingleSound(code, data, asnLen);
    }
  }
}
