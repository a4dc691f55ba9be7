/** Decoding the value of one path attribute. */
module Attributes {
  import opened Base
  import opened Bits
  import opened Octets
  import opened Prefixes

  // One AS_PATH segment: its type octet and its AS numbers.
  datatype Segment = Segment(kind: byte, asns: seq<nat>)

  datatype Community = Standard(value: nat) | Large(admin: nat, first: nat, second: nat)

  // The text an extended community is shown as. Notes holds the flags shown in parentheses.
  datatype Action =
    | Discard
    | RateLimitBits(rate: Bytes)
    | DiscardPackets
    | RateLimitPackets(rate: Bytes)
    | TrafficAction(sample: bool, terminal: bool)
    | RtRedirect(asn: nat, value: nat)
    | RtRedirectAddress(address: Bytes, value: nat)
    | MarkDscp(value: nat)
    | ToAddress(copy: bool, family: nat, hop: Hop, notes: Option<nat>)
    | ToNextHop(copy: bool, notes: Option<nat>)
    | JuniperToNextHop(raw: string)
    | JuniperToAddress(raw: string, hop: Hop)
    | UnknownFlowSpec(raw: string)
    | UnknownExtended(raw: string)
    | UnknownFlowSpec6(raw: string)
    | UnknownExtended6(raw: string)

  datatype AttrValue =
    | Origin(code: byte)
    | AsPath(segments: seq<Segment>)
    | Address(hop: Hop)
    | Number(value: nat)
    | Marked
    | Aggregator(asn: nat, router: Hop)
    | Communities(communities: seq<Community>)
    | ClusterList(clusters: seq<Hop>)
    | MultiProtocol(afi: nat, safi: byte, nextHop: Option<Hop>, nlriLength: nat)
    | ExtendedCommunities(actions: seq<Action>)

  // The input in pieces of n octets; a shorter last piece is dropped.
  function Chunks(data: Bytes, n: nat): (r: seq<Bytes>)
    requires n > 0
    ensures forall i | 0 <= i < |r| :: |r[i]| == n
    decreases |data|
  {
    if |data| < n then [] else [data[..n]] + Chunks(data[n..], n)
  }

  function Numbers(chunks: seq<Bytes>): (r: seq<nat>)
    ensures |r| == |chunks|
  {
    seq(|chunks|, i requires 0 <= i < |chunks| => BeValue(chunks[i]))
  }

  /* ---------- AS_PATH ---------- */

  function Segments(data: Bytes, width: nat): Result<seq<Segment>>
    requires width > 0
    decreases |data|
  {
    if data == [] then Ok([])
    else
      var (head, body) :- Take(data, 2);
      var (raw, rest) :- Take(body, head[1] * width);
      Cons(Segment(head[0], Numbers(Chunks(raw, width))), Segments(rest, width))
  }

  method ReadNumbers(raw: Bytes, width: nat) returns (asns: seq<nat>)
    requires 0 < width <= 8
    ensures asns == Numbers(Chunks(raw, width))
  {
    asns := [];
    var chunks := Chunks(raw, width);
    for i := 0 to |chunks|
      invariant asns == Numbers(chunks)[..i]
    {
      var n := ReadBeInt(chunks[i]);
      asns := asns + [n];
    }
  }

  method ReadSegments(input: Bytes, width: nat) returns (r: Result<seq<Segment>>)
    requires 0 < width <= 8
    ensures r == Segments(input, width)
  {
    var path := [];
    var data := input;
    JoinNothing(Segments(input, width));
    while data != []
      invariant Segments(input, width) == Join(path, Segments(data, width))
      decreases |data|
    {
      var head :- Take(data, 2);
      var body :- Take(head.1, head.0[1] * width);
      var asns := ReadNumbers(body.0, width);
      JoinCons(path, Segment(head.0[0], asns), Segments(body.1, width));
      path := path + [Segment(head.0[0], asns)];
      data := body.1;
    }
    assert path + [] == path;
    return Ok(path);
  }

  /* ---------- communities ---------- */

  function StandardCommunity(c: Bytes): Community
    requires |c| == 4
  {
    Standard(BeValue(c))
  }

  function LargeCommunity(c: Bytes): Community
    requires |c| == 12
  {
    Large(BeValue(c[..4]), BeValue(c[4..8]), BeValue(c[8..]))
  }

  function MapChunks<T>(chunks: seq<Bytes>, n: nat, f: Bytes --> T): (r: seq<T>)
    requires forall c | c in chunks :: |c| == n
    requires forall c: Bytes | |c| == n :: f.requires(c)
    ensures |r| == |chunks|
  {
    seq(|chunks|, i requires 0 <= i < |chunks| => f(chunks[i]))
  }

  // A binary32 that is zero or below: not a NaN, and negative or with no bit but the sign set.
  predicate NotPositive(f: Bytes)
    requires |f| == 4
  {
    var magnitude := (BeValue(f)) % 0x8000_0000;
    magnitude <= 0x7f80_0000 && (BeValue(f) >= 0x8000_0000 || magnitude == 0)
  }

  function RedirectToAddress(family: nat, address: Bytes, flags: nat): Action {
    var copy := And(flags, 1) != 0;
    var notes := if flags == 0 || flags == 1 then None else Some(flags);
    if forall i | 0 <= i < |address| :: address[i] == 0 then ToNextHop(copy, notes)
    else ToAddress(copy, family, NextHop(address), notes)
  }

  function ExtendedCommunity(c: Bytes): Action
    requires |c| == 8
  {
    var (t, s) := (c[0], c[1]);
    if t == 0x80 && s == 0x06 then
      if NotPositive(c[4..8]) then Discard else RateLimitBits(c[4..8])
    else if t == 0x80 && s == 0x0c then
      if NotPositive(c[4..8]) then DiscardPackets else RateLimitPackets(c[4..8])
    else if t == 0x80 && s == 0x07 then TrafficAction(And(c[7], 2) != 0, And(c[7], 1) != 0)
    else if t == 0x80 && s == 0x08 then RtRedirect(BeValue(c[2..4]), BeValue(c[4..8]))
    else if t == 0x81 && s == 0x08 then RtRedirectAddress(c[2..6], BeValue(c[6..8]))
    else if t == 0x82 && s == 0x08 then RtRedirect(BeValue(c[2..6]), BeValue(c[6..8]))
    else if t == 0x80 && s == 0x09 then MarkDscp(And(c[7], 0x3f))
    else if t == 0x01 && s == 0x0c then RedirectToAddress(4, c[2..6], BeValue(c[6..8]))
    else if t == 0x08 then ToNextHop(false, None)
    else if t == 0x80 && s == 0x0b then JuniperToNextHop(HexText(c))
    else if t == 0x80 || t == 0x81 || t == 0x82 then UnknownFlowSpec(HexText(c))
    else UnknownExtended(HexText(c))
  }

  function ExtendedCommunity6(c: Bytes): Action
    requires |c| == 20
  {
    var kind := BeValue(c[..2]);
    if kind == 0x000c then RedirectToAddress(6, c[2..18], BeValue(c[18..]))
    else if kind == 0x000d then RtRedirectAddress(c[2..18], BeValue(c[18..]))
    else if 0x000c <= kind < 0x0010 then UnknownFlowSpec6(HexText(c))
    else UnknownExtended6(HexText(c))
  }

  lemma ChunkHead(data: Bytes, n: nat)
    requires 0 < n <= |data|
    ensures Chunks(data, n) == [data[..n]] + Chunks(data[n..], n)
  {
  }

  lemma MapHead<T>(chunks: seq<Bytes>, n: nat, f: Bytes --> T)
    requires chunks != [] && forall c | c in chunks :: |c| == n
    requires forall c: Bytes | |c| == n :: f.requires(c)
    ensures MapChunks(chunks, n, f) == [f(chunks[0])] + MapChunks(chunks[1..], n, f)
  {
  }

  lemma MapStep<T>(done: seq<T>, data: Bytes, n: nat, f: Bytes --> T)
    requires 0 < n <= |data|
    requires forall c: Bytes | |c| == n :: f.requires(c)
    ensures done + MapChunks(Chunks(data, n), n, f)
         == (done + [f(data[..n])]) + MapChunks(Chunks(data[n..], n), n, f)
  {
    ChunkHead(data, n);
    MapHead(Chunks(data, n), n, f);
    assert Chunks(data, n)[1..] == Chunks(data[n..], n);
  }

  method ParseExtendedCommunities(input: Bytes) returns (actions: seq<Action>)
    ensures actions == MapChunks(Chunks(input, 8), 8, ExtendedCommunity)
  {
    hide ExtendedCommunity;
    actions := [];
    var data := input;
    assert [] + MapChunks(Chunks(input, 8), 8, ExtendedCommunity) == MapChunks(Chunks(input, 8), 8, ExtendedCommunity);
    while |data| >= 8
      invariant MapChunks(Chunks(input, 8), 8, ExtendedCommunity)
             == actions + MapChunks(Chunks(data, 8), 8, ExtendedCommunity)
      decreases |data|
    {
      MapStep(actions, data, 8, ExtendedCommunity);
      actions := actions + [ExtendedCommunity(data[..8])];
      data := data[8..];
    }
  }

  method ParseExtendedCommunities6(input: Bytes) returns (actions: seq<Action>)
    ensures actions == MapChunks(Chunks(input, 20), 20, ExtendedCommunity6)
  {
    hide ExtendedCommunity6;
    actions := [];
    var data := input;
    assert [] + MapChunks(Chunks(input, 20), 20, ExtendedCommunity6)
        == MapChunks(Chunks(input, 20), 20, ExtendedCommunity6);
    while |data| >= 20
      invariant MapChunks(Chunks(input, 20), 20, ExtendedCommunity6)
             == actions + MapChunks(Chunks(data, 20), 20, ExtendedCommunity6)
      decreases |data|
    {
      MapStep(actions, data, 20, ExtendedCommunity6);
      actions := actions + [ExtendedCommunity6(data[..20])];
      data := data[20..];
    }
  }

  /* ---------- the attribute value ---------- */

  // The header of an MP_REACH_NLRI (code 14) or MP_UNREACH_NLRI (code 15): family, subfamily,
  // next hop, and the NLRI octets after it.
  datatype MpHead = MpHead(afi: nat, safi: byte, nextHop: Hop, nlri: Bytes)

  function ReadMpHead(code: byte, data: Bytes): Result<MpHead> {
    var (family, rest) :- Take(data, 2);
    var (sub, rest) :- Take(rest, 1);
    if code == 14 then
      var (size, rest) :- Take(rest, 1);
      var (hop, rest) :- Take(rest, size[0]);
      var (_, rest) :- Take(rest, 1);
      Ok(MpHead(U16(family[0], family[1]), sub[0], NextHop(hop), rest))
    else Ok(MpHead(U16(family[0], family[1]), sub[0], NoHop, rest))
  }

  // The value shown for an attribute, or why it cannot be shown as one.
  function Decoded(code: byte, data: Bytes, asnLen: nat): Result<AttrValue>
    requires asnLen == 2 || asnLen == 4
  {
    var n := |data|;
    if code == 1 && n == 1 then Ok(Origin(data[0]))
    else if code == 2 || code == 17 then
      var segments :- Segments(data, if code == 17 then 4 else asnLen);
      Ok(AsPath(segments))
    else if (code == 3 || code == 9) && n == 4 then Ok(Address(NextHop(data)))
    else if (code == 4 || code == 5) && n == 4 then Ok(Number(BeValue(data)))
    else if code == 6 && n == 0 then Ok(Marked)
    else if (code == 7 && n == 6) || (code == 18 && n == 8) then
      Ok(Aggregator(BeValue(data[..n - 4]), NextHop(data[n - 4..])))
    else if code == 8 && n % 4 == 0 then Ok(Communities(MapChunks(Chunks(data, 4), 4, StandardCommunity)))
    else if code == 10 && n % 4 == 0 then Ok(ClusterList(MapChunks(Chunks(data, 4), 4, NextHop)))
    else if code == 14 || code == 15 then
      var head :- ReadMpHead(code, data);
      Ok(MultiProtocol(head.afi, head.safi, if code == 14 then Some(head.nextHop) else None, |head.nlri|))
    else if code == 16 && n % 8 == 0 then
      Ok(ExtendedCommunities(MapChunks(Chunks(data, 8), 8, ExtendedCommunity)))
    else if code == 25 && n % 20 == 0 then
      Ok(ExtendedCommunities(MapChunks(Chunks(data, 20), 20, ExtendedCommunity6)))
    else if code == 32 && n % 12 == 0 then Ok(Communities(MapChunks(Chunks(data, 12), 12, LargeCommunity)))
    else Err(BadAttribute)
  }

  method Attribute(code: byte, data: Bytes, asnLen: nat) returns (r: Result<AttrValue>)
    requires asnLen == 2 || asnLen == 4
    ensures r == Decoded(code, data, asnLen)
  {
    hide Segments, Chunks, MapChunks, BeValue, ReadMpHead, NextHop, ExtendedCommunity, ExtendedCommunity6;
    match code {
      case 1 =>
        if |data| == 1 {
          return Ok(Origin(data[0]));
        }
      case 2 | 17 =>
        var segments := ReadSegments(data, if code == 17 then 4 else asnLen);
        var path :- segments;
        return Ok(AsPath(path));
      case 3 | 9 =>
        if |data| == 4 {
          return Ok(Address(NextHop(data)));
        }
      case 4 | 5 =>
        if |data| == 4 {
          var n := ReadBeInt(data);
          return Ok(Number(n));
        }
      case 6 =>
        if data == [] {
          return Ok(Marked);
        }
      case 7 | 18 =>
        if |data| == if code == 7 then 6 else 8 {
          var width := |data| - 4;
          var asn := ReadBeInt(data[..width]);
          return Ok(Aggregator(asn, NextHop(data[width..])));
        }
      case 8 =>
        if |data| % 4 == 0 {
          return Ok(Communities(MapChunks(Chunks(data, 4), 4, StandardCommunity)));
        }
      case 10 =>
        if |data| % 4 == 0 {
          return Ok(ClusterList(MapChunks(Chunks(data, 4), 4, NextHop)));
        }
      case 14 | 15 =>
        var head :- ReadMpHead(code, data);
        return Ok(MultiProtocol(head.afi, head.safi, if code == 14 then Some(head.nextHop) else None, |head.nlri|));
      case 16 =>
        if |data| % 8 == 0 {
          var actions := ParseExtendedCommunities(data);
          return Ok(ExtendedCommunities(actions));
        }
      case 25 =>
        if |data| % 20 == 0 {
          var actions := ParseExtendedCommunities6(data);
          return Ok(ExtendedCommunities(actions));
        }
      case 32 =>
        if |data| % 12 == 0 {
          return Ok(Communities(MapChunks(Chunks(data, 12), 12, LargeCommunity)));
        }
      case _ =>
    }
    return Err(BadAttribute);
  }

  /* ---------- the AS_PATH encoding ---------- */

  predicate ValidNumbers(asns: seq<nat>, width: nat) {
    forall i | 0 <= i < |asns| :: asns[i] < Pow256(width)
  }

  predicate ValidSegments(path: seq<Segment>, width: nat) {
    forall i | 0 <= i < |path| :: |path[i].asns| < 256 && ValidNumbers(path[i].asns, width)
  }

  function EncodeNumbers(asns: seq<nat>, width: nat): (d: Bytes)
    ensures |d| == |asns| * width
  {
    if asns == [] then [] else ToBe(asns[0], width) + EncodeNumbers(asns[1..], width)
  }

  function EncodeSegments(path: seq<Segment>, width: nat): Bytes
    requires ValidSegments(path, width)
  {
    if path == [] then []
    else
      [path[0].kind, |path[0].asns|] + (EncodeNumbers(path[0].asns, width) + EncodeSegments(path[1..], width))
  }

  lemma {:induction false} NumbersRoundTrip(asns: seq<nat>, width: nat)
    requires width > 0 && ValidNumbers(asns, width)
    ensures Numbers(Chunks(EncodeNumbers(asns, width), width)) == asns
  {
    if asns != [] {
      NumbersRoundTrip(asns[1..], width);
      BeRoundTrip(asns[0], width);
      ChunkStep(ToBe(asns[0], width), EncodeNumbers(asns[1..], width), width);
      assert asns == [asns[0]] + asns[1..];
    }
  }

  lemma ChunkStep(head: Bytes, tail: Bytes, n: nat)
    requires n > 0 && |head| == n
    ensures Numbers(Chunks(head + tail, n)) == [BeValue(head)] + Numbers(Chunks(tail, n))
  {
    assert (head + tail)[..n] == head && (head + tail)[n..] == tail;
    assert Chunks(head + tail, n) == [head] + Chunks(tail, n);
  }

  lemma SegmentStep(s: Segment, rest: Bytes, width: nat)
    requires width > 0 && |s.asns| < 256 && ValidNumbers(s.asns, width)
    ensures Segments([s.kind, |s.asns|] + (EncodeNumbers(s.asns, width) + rest), width)
         == Cons(s, Segments(rest, width))
  {
    TakeSplit([s.kind, |s.asns|], EncodeNumbers(s.asns, width) + rest);
    TakeSplit(EncodeNumbers(s.asns, width), rest);
    NumbersRoundTrip(s.asns, width);
  }

  // Every encoded path is read back segment by segment.
  lemma {:induction false} SegmentsRoundTrip(path: seq<Segment>, width: nat)
    requires width > 0 && ValidSegments(path, width)
    ensures Segments(EncodeSegments(path, width), width) == Ok(path)
  {
    if path != [] {
      SegmentsRoundTrip(path[1..], width);
      SegmentStep(path[0], EncodeSegments(path[1..], width), width);
      assert path == [path[0]] + path[1..];
    }
  }
}
