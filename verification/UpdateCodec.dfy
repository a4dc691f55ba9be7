/** Decoding an UPDATE message body. */
module UpdateCodec {
  import opened Base
  import opened Bits
  import opened Octets
  import opened Prefixes
  import opened FlowSpec
  import opened Attributes

  const SAFI_UNICAST: byte := 1
  const SAFI_FLOWSPEC: byte := 133

  // The route groups an UPDATE can carry, in the order of their names.
  datatype Label = Ipv4FlowSpec | Ipv4Unicast | Ipv6FlowSpec | Ipv6Unicast

  datatype Nlri = UnicastNlri(routes: seq<UnicastRoute>) | FlowNlri(rules: seq<Rule>)

  // An attribute's decoded value, or its octets in hexadecimal when they have none.
  datatype Content = Value(value: AttrValue) | Raw(hex: string)

  datatype Attr = Attr(code: byte, flags: byte, length: nat, content: Content)

  datatype Update = Update(announce: map<Label, Nlri>, withdraw: map<Label, Nlri>,
                           actions: seq<Action>, attributes: seq<Attr>)

  // What has been gathered from the attributes read so far.
  datatype Progress = Progress(announce: map<Label, Nlri>, withdraw: map<Label, Nlri>,
                               actions: seq<Action>, attributes: seq<Attr>, nextHop: Hop, flowNextHop: Hop)

  // One attribute as it stands on the wire.
  datatype WireAttr = WireAttr(flags: byte, code: byte, data: Bytes)

  const NOTHING := Progress(map[], map[], [], [], NoHop, NoHop)

  predicate IsExtended(flags: byte) {
    And(flags, 16) != 0
  }

  // The first attribute of the input, with a two-octet length when its flags say so.
  function AttrFrame(attrs: Bytes): (r: Result<(WireAttr, Bytes)>)
    ensures r.Ok? ==> |r.value.1| < |attrs|
  {
    var (head, body) :- Take(attrs, 2);
    if IsExtended(head[0]) then
      var (size, body) :- Take(body, 2);
      var (data, rest) :- Take(body, U16(size[0], size[1]));
      Ok((WireAttr(head[0], head[1], data), rest))
    else
      var (size, body) :- Take(body, 1);
      var (data, rest) :- Take(body, size[0]);
      Ok((WireAttr(head[0], head[1], data), rest))
  }

  predicate IsMultiProtocol(code: byte) {
    code == 14 || code == 15
  }

  predicate KnownFamily(head: MpHead) {
    (head.afi == AFI_IPV4 || head.afi == AFI_IPV6) && (head.safi == SAFI_UNICAST || head.safi == SAFI_FLOWSPEC)
  }

  function LabelOf(head: MpHead): Label {
    if head.safi == SAFI_FLOWSPEC then (if head.afi == AFI_IPV6 then Ipv6FlowSpec else Ipv4FlowSpec)
    else if head.afi == AFI_IPV6 then Ipv6Unicast else Ipv4Unicast
  }

  function DecodeNlri(code: byte, head: MpHead): Result<Nlri> {
    if head.safi == SAFI_FLOWSPEC then
      var rules :- RuleList(head.nlri, head.afi);
      Ok(FlowNlri(rules))
    else
      var routes :- UnicastRoutes(head.nlri, head.afi, if code == 14 then Some(head.nextHop) else None);
      Ok(UnicastNlri(routes))
  }

  function ContentOf(a: WireAttr, asnLen: nat): Content
    requires asnLen == 2 || asnLen == 4
  {
    match Decoded(a.code, a.data, asnLen)
    case Ok(v) => Value(v)
    case Err(_) => Raw(HexText(a.data))
  }

  function AttrOf(a: WireAttr, asnLen: nat): Attr
    requires asnLen == 2 || asnLen == 4
  {
    Attr(a.code, a.flags, |a.data|, ContentOf(a, asnLen))
  }

  // The text of a NEXT_HOP value, empty when it has none.
  function HopOf(content: Content): Hop {
    if content.Value? && content.value.Address? then content.value.hop else NoHop
  }

  function ActionsOf(content: Content): seq<Action> {
    if content.Value? && content.value.ExtendedCommunities? then content.value.actions else []
  }

  // Progress after the parts of an attribute that cannot fail.
  function Noted(p: Progress, a: WireAttr, asnLen: nat): Progress
    requires asnLen == 2 || asnLen == 4
  {
    var content := ContentOf(a, asnLen);
    p.(attributes := p.attributes + [AttrOf(a, asnLen)],
       nextHop := if a.code == 3 then HopOf(content) else p.nextHop,
       actions := if a.code == 16 || a.code == 25 then p.actions + ActionsOf(content) else p.actions)
  }

  // The routes an attribute carries: announced or withdrawn, filed under a label, and the
  // FlowSpec next hop that comes with them.
  datatype Carry = Carry(announced: bool, group: Label, nlri: Nlri, hop: Hop)

  function Carried(a: WireAttr): Result<Option<Carry>> {
    if !IsMultiProtocol(a.code) then Ok(None)
    else
      var head :- ReadMpHead(a.code, a.data);
      if !KnownFamily(head) then Ok(None)
      else
        var nlri :- DecodeNlri(a.code, head);
        Ok(Some(Carry(a.code == 14, LabelOf(head), nlri, if head.safi == SAFI_FLOWSPEC then head.nextHop else NoHop)))
  }

  function Joined(p: Progress, c: Option<Carry>): Progress {
    if c.None? then p
    else
      var q := if c.value.hop == NoHop then p else p.(flowNextHop := c.value.hop);
      if c.value.announced then q.(announce := q.announce[c.value.group := c.value.nlri])
      else q.(withdraw := q.withdraw[c.value.group := c.value.nlri])
  }

  // Progress after one attribute; routes of a known family that cannot be read end the decoding.
  function Absorbed(p: Progress, a: WireAttr, asnLen: nat): Result<Progress>
    requires asnLen == 2 || asnLen == 4
  {
    var c :- Carried(a);
    Ok(Joined(Noted(p, a, asnLen), c))
  }

  function AbsorbAll(attrs: Bytes, p: Progress, asnLen: nat): Result<Progress>
    requires asnLen == 2 || asnLen == 4
    decreases |attrs|
  {
    if attrs == [] then Ok(p)
    else
      var (a, rest) :- AttrFrame(attrs);
      var q :- Absorbed(p, a, asnLen);
      AbsorbAll(rest, q, asnLen)
  }

  /* ---------- next hops of redirect actions ---------- */

  function Redirected(a: Action, hop: Hop): Action {
    match a
    case ToNextHop(copy, None) => ToAddress(copy, 4, hop, None)
    case JuniperToNextHop(raw) => JuniperToAddress(raw, hop)
    case _ => a
  }

  function RedirectedAll(actions: seq<Action>, hop: Hop): seq<Action> {
    seq(|actions|, i requires 0 <= i < |actions| => Redirected(actions[i], hop))
  }

  function RedirectedAttr(a: Attr, hop: Hop): Attr {
    if a.code == 16 && a.content.Value? && a.content.value.ExtendedCommunities? then
      a.(content := Value(ExtendedCommunities(RedirectedAll(a.content.value.actions, hop))))
    else a
  }

  function RedirectedAttrs(attributes: seq<Attr>, hop: Hop): (r: seq<Attr>)
    ensures |r| == |attributes|
  {
    seq(|attributes|, i requires 0 <= i < |attributes| => RedirectedAttr(attributes[i], hop))
  }

  // A FlowSpec next hop, once known, is written into the actions that redirect to it.
  function Resolved(p: Progress): Progress {
    if p.flowNextHop == NoHop then p
    else p.(actions := RedirectedAll(p.actions, p.flowNextHop),
            attributes := RedirectedAttrs(p.attributes, p.flowNextHop))
  }

  method Replace(values: seq<Action>, hop: Hop) returns (r: seq<Action>)
    ensures r == RedirectedAll(values, hop)
  {
    r := values;
    for i := 0 to |values|
      invariant |r| == |values|
      invariant r[..i] == RedirectedAll(values, hop)[..i]
      invariant r[i..] == values[i..]
    {
      assert r[i] == r[i..][0] == values[i];
      r := r[i := Redirected(values[i], hop)];
    }
  }

  method Resolve(p: Progress) returns (r: Progress)
    ensures r == Resolved(p)
  {
    r := p;
    if p.flowNextHop != NoHop {
      var actions := Replace(p.actions, p.flowNextHop);
      var attributes := p.attributes;
      for i := 0 to |attributes|
        invariant |attributes| == |p.attributes|
        invariant attributes[..i] == RedirectedAttrs(p.attributes, p.flowNextHop)[..i]
        invariant attributes[i..] == p.attributes[i..]
      {
        var attr := attributes[i];
        assert attr == attributes[i..][0] == p.attributes[i];
        if attr.code == 16 && attr.content.Value? && attr.content.value.ExtendedCommunities? {
          var v := Replace(attr.content.value.actions, p.flowNextHop);
          attr := attr.(content := Value(ExtendedCommunities(v)));
        }
        attributes := attributes[i := attr];
      }
      r := r.(actions := actions, attributes := attributes);
    }
  }

  /* ---------- the whole message ---------- */

  // IPv4 unicast routes from outside the attributes replace those filed under that label.
  function WithPlain(groups: map<Label, Nlri>, data: Bytes, nextHop: Option<Hop>): Result<map<Label, Nlri>> {
    if data == [] then Ok(groups)
    else
      var routes :- UnicastRoutes(data, AFI_IPV4, nextHop);
      Ok(groups[Ipv4Unicast := UnicastNlri(routes)])
  }

  function Finished(p: Progress, withdrawn: Bytes, nlri: Bytes): Result<Update> {
    var withdraw :- WithPlain(p.withdraw, withdrawn, None);
    var announce :- WithPlain(p.announce, nlri, Some(p.nextHop));
    Ok(Update(announce, withdraw, p.actions, p.attributes))
  }

  function ParseUpdate(data: Bytes, asnLen: nat): Result<Update> {
    if asnLen != 2 && asnLen != 4 then Err(InvalidAsnWidth)
    else
      var (size, body) :- Take(data, 2);
      var (withdrawn, body) :- Take(body, U16(size[0], size[1]));
      var (size, body) :- Take(body, 2);
      var (attrs, nlri) :- Take(body, U16(size[0], size[1]));
      var p :- AbsorbAll(attrs, NOTHING, asnLen);
      Finished(Resolved(p), withdrawn, nlri)
  }

  method DecodeUpdate(data: Bytes, asnLen: nat) returns (r: Result<Update>)
    ensures r == ParseUpdate(data, asnLen)
  {
    if asnLen != 2 && asnLen != 4 {
      return Err(InvalidAsnWidth);
    }
    var size1 :- Take(data, 2);
    var withdrawn :- Take(size1.1, U16(size1.0[0], size1.0[1]));
    var size2 :- Take(withdrawn.1, 2);
    var rest :- Take(size2.1, U16(size2.0[0], size2.0[1]));
    var attrs, nlri := rest.0, rest.1;
    var p := NOTHING;
    while attrs != []
      invariant AbsorbAll(rest.0, NOTHING, asnLen) == AbsorbAll(attrs, p, asnLen)
      decreases |attrs|
    {
      var frame :- AttrFrame(attrs);
      attrs := frame.1;
      var absorbed := Absorb(p, frame.0, asnLen);
      p :- absorbed;
    }
    p := Resolve(p);
    var withdraw, announce := p.withdraw, p.announce;
    if withdrawn.0 != [] {
      var decoded := Unicast(withdrawn.0, AFI_IPV4, None);
      var routes :- decoded;
      withdraw := withdraw[Ipv4Unicast := UnicastNlri(routes)];
    }
    if nlri != [] {
      var decoded := Unicast(nlri, AFI_IPV4, Some(p.nextHop));
      var routes :- decoded;
      announce := announce[Ipv4Unicast := UnicastNlri(routes)];
    }
    return Ok(Update(announce, withdraw, p.actions, p.attributes));
  }

  method Absorb(before: Progress, a: WireAttr, asnLen: nat) returns (r: Result<Progress>)
    requires asnLen == 2 || asnLen == 4
    ensures r == Absorbed(before, a, asnLen)
  {
    var p := before;
    var decoded := Attribute(a.code, a.data, asnLen);
    var content;
    if decoded.Ok? {
      content := Value(decoded.value);
    } else {
      var hex := HexEncode(a.data);
      content := Raw(hex);
    }
    if a.code == 3 {
      p := p.(nextHop := HopOf(content));
    }
    if a.code == 16 || a.code == 25 {
      p := p.(actions := p.actions + ActionsOf(content));
    }
    if a.code == 14 || a.code == 15 {
      var head :- ReadMpHead(a.code, a.data);
      if KnownFamily(head) {
        var nlri;
        if head.safi == SAFI_FLOWSPEC {
          if head.nextHop != NoHop {
            p := p.(flowNextHop := head.nextHop);
          }
          var rules := Flowspec(head.nlri, head.afi);
          var flows :- rules;
          nlri := FlowNlri(flows);
        } else {
          var routes := Unicast(head.nlri, head.afi, if a.code == 14 then Some(head.nextHop) else None);
          var prefixes :- routes;
          nlri := UnicastNlri(prefixes);
        }
        if a.code == 14 {
          p := p.(announce := p.announce[LabelOf(head) := nlri]);
        } else {
          p := p.(withdraw := p.withdraw[LabelOf(head) := nlri]);
        }
      }
    }
    return Ok(p.(attributes := p.attributes + [Attr(a.code, a.flags, |a.data|, content)]));
  }
}
