/** Message framing and the OPEN message: builder, parser, and their agreement. */
module OpenCodec {
  import opened Base
  import opened Octets

  const AS_TRANS: nat := 23456
  const CAP_MULTIPROTOCOL: byte := 1
  const CAP_FOUR_OCTET_AS: byte := 65
  const PARAM_CAPABILITIES: byte := 2

  datatype OpenInfo = OpenInfo(peerAs: nat, holdTime: nat, routerId: Bytes, fourOctetAs: bool)

  /* ---------- framing ---------- */

  function Marker(): (m: Bytes)
    ensures |m| == 16
  {
    seq(16, _ => 255)
  }

  // The message type and body length announced by a 19-octet header.
  function Header(data: Bytes): (r: Result<(byte, nat)>)
    ensures r.Ok? ==> r.value.1 <= 4077
  {
    if |data| != 19 || data[..16] != Marker() then Err(InvalidHeader)
    else
      var length := U16(data[16], data[17]);
      if length < 19 || 4096 < length then Err(InvalidMessageLength) else Ok((data[18], length - 19))
  }

  // A whole message. The length field holds sixteen bits and no more.
  function Framed(kind: byte, body: Bytes): (m: Bytes)
    ensures |m| == 19 + |body|
  {
    Marker() + ToBe((|body| + 19) % 65536, 2) + [kind] + body
  }

  method Message(kind: byte, body: Bytes) returns (data: Bytes)
    ensures data == Framed(kind, body)
  {
    data := seq(16, _ => 255);
    data := data + ToBe((|body| + 19) % 65536, 2);
    data := data + [kind];
    data := data + body;
  }

  lemma TwoOctets(v: nat)
    requires v < 65536
    ensures U16(ToBe(v, 2)[0], ToBe(v, 2)[1]) == v
  {
    assert ToBe(v, 2) == ToBe(v / 256, 1) + [v % 256];
    assert ToBe(v / 256, 1) == ToBe(v / 256 / 256, 0) + [v / 256 % 256];
  }

  // The header of a built message announces that message, provided it fits the protocol's bound.
  lemma FrameRoundTrip(kind: byte, body: Bytes)
    ensures Header(Framed(kind, body)[..19]) == Ok((kind, |body|)) <==> |body| <= 4077
    ensures Framed(kind, body)[19..] == body
  {
    hide Marker, Framed, U16;
    var m := Framed(kind, body);
    FramedParts(kind, body);
    FramedLength(kind, body);
    assert m[..19][..16] == m[..16] && m[..19][16] == m[16] && m[..19][17] == m[17] && m[..19][18] == m[18];
    if |body| <= 4077 {
      assert U16(m[16], m[17]) == |body| + 19;
    } else if |body| + 19 < 65536 {
      assert U16(m[16], m[17]) > 4096;
    }
  }

  lemma FramedParts(kind: byte, body: Bytes)
    ensures var m := Framed(kind, body);
            m[..16] == Marker() && m[16..18] == ToBe((|body| + 19) % 65536, 2) && m[18] == kind && m[19..] == body
  {
    hide Marker, ToBe;
    Parts(Marker(), ToBe((|body| + 19) % 65536, 2), kind, body);
  }

  lemma Parts(a: Bytes, b: Bytes, c: byte, d: Bytes)
    requires |a| == 16 && |b| == 2
    ensures var m := a + b + [c] + d;
            m[..16] == a && m[16..18] == b && m[18] == c && m[19..] == d
  {
    var front := a + b + [c];
    assert (front + d)[..19] == front && (front + d)[19..] == d;
    assert front[..16] == a && front[16..18] == b && front[18] == c;
  }

  lemma FramedLength(kind: byte, body: Bytes)
    ensures U16(Framed(kind, body)[16], Framed(kind, body)[17]) == (|body| + 19) % 65536
  {
    hide Marker, Framed, ToBe, U16;
    var m := Framed(kind, body);
    FramedParts(kind, body);
    assert m[16] == m[16..18][0] && m[17] == m[16..18][1];
    TwoOctets((|body| + 19) % 65536);
  }

  /* ---------- parsing OPEN ---------- */

  // What is known of the peer's AS number so far, and whether it came from a four-octet capability.
  type Known = (nat, bool)

  function ScanCapabilities(caps: Bytes, known: Known): Result<Known>
    decreases |caps|
  {
    if caps == [] then Ok(known)
    else
      var (head, body) :- Take(caps, 2);
      var (value, rest) :- Take(body, head[1]);
      ScanCapabilities(rest, if head[0] == CAP_FOUR_OCTET_AS && |value| == 4 then (BeValue(value), true) else known)
  }

  function ScanParameters(params: Bytes, known: Known): Result<Known>
    decreases |params|
  {
    if params == [] then Ok(known)
    else
      var (head, body) :- Take(params, 2);
      var (caps, rest) :- Take(body, head[1]);
      if head[0] != PARAM_CAPABILITIES then ScanParameters(rest, known)
      else
        var known' :- ScanCapabilities(caps, known);
        ScanParameters(rest, known')
  }

  function ParseOpen(data: Bytes): Result<OpenInfo> {
    var (fixed, rest) :- Take(data, 10);
    var hold := U16(fixed[3], fixed[4]);
    if fixed[0] != 4 || (hold != 0 && hold < 3) then Err(InvalidOpen)
    else
      var (params, _) :- Take(rest, fixed[9]);
      var (asn, four) :- ScanParameters(params, (U16(fixed[1], fixed[2]), false));
      Ok(OpenInfo(asn, hold, fixed[5..9], four))
  }

  method Open(data: Bytes) returns (r: Result<OpenInfo>)
    ensures r == ParseOpen(data)
  {
    var first :- Take(data, 10);
    var fixed := first.0;
    var asn := U16(fixed[1], fixed[2]);
    var hold := U16(fixed[3], fixed[4]);
    if fixed[0] != 4 || (hold != 0 && hold < 3) {
      return Err(InvalidOpen);
    }
    var second :- Take(first.1, fixed[9]);
    var params := second.0;
    var as4 := false;
    ghost var all := ScanParameters(params, (asn, false));
    while params != []
      invariant all == ScanParameters(params, (asn, as4))
      decreases |params|
    {
      var head :- Take(params, 2);
      var body :- Take(head.1, head.0[1]);
      var caps := body.0;
      params := body.1;
      if head.0[0] != PARAM_CAPABILITIES {
        continue;
      }
      ghost var scanned := ScanCapabilities(caps, (asn, as4));
      while caps != []
        invariant scanned == ScanCapabilities(caps, (asn, as4))
        decreases |caps|
      {
        var h :- Take(caps, 2);
        var val :- Take(h.1, h.0[1]);
        caps := val.1;
        if h.0[0] == CAP_FOUR_OCTET_AS && |val.0| == 4 {
          asn := ReadBeInt(val.0);
          as4 := true;
        }
      }
    }
    return Ok(OpenInfo(asn, hold, fixed[5..9], as4));
  }

  /* ---------- the encoding of section 4 of RFC 5492 ---------- */

  datatype Capability = Capability(code: byte, value: Bytes)

  datatype Parameter = Capabilities(caps: seq<Capability>) | Other(kind: byte, data: Bytes)

  datatype OpenMessage = OpenMessage(asn: nat, holdTime: nat, routerId: Bytes, params: seq<Parameter>)

  predicate ValidCapabilities(caps: seq<Capability>) {
    forall i | 0 <= i < |caps| :: |caps[i].value| < 256
  }

  predicate ValidParameter(p: Parameter) {
    match p
    case Capabilities(caps) => ValidCapabilities(caps) && |EncodeCapabilities(caps)| < 256
    case Other(kind, data) => kind != PARAM_CAPABILITIES && |data| < 256
  }

  predicate ValidParameters(ps: seq<Parameter>) {
    forall i | 0 <= i < |ps| :: ValidParameter(ps[i])
  }

  // The hold times the protocol allows.
  predicate ValidHold(hold: nat) {
    hold == 0 || 3 <= hold
  }

  predicate ValidMessage(m: OpenMessage) {
    && m.asn < 65536 && m.holdTime < 65536 && |m.routerId| == 4
    && ValidParameters(m.params) && |EncodeParameters(m.params)| < 256
  }

  function EncodeCapabilities(caps: seq<Capability>): Bytes
    requires ValidCapabilities(caps)
  {
    if caps == [] then []
    else [caps[0].code, |caps[0].value|] + (caps[0].value + EncodeCapabilities(caps[1..]))
  }

  function ParameterBody(p: Parameter): Bytes
    requires ValidParameter(p)
  {
    match p
    case Capabilities(caps) => EncodeCapabilities(caps)
    case Other(_, data) => data
  }

  function ParameterKind(p: Parameter): byte {
    if p.Capabilities? then PARAM_CAPABILITIES else p.kind
  }

  function EncodeParameters(ps: seq<Parameter>): Bytes
    requires ValidParameters(ps)
  {
    if ps == [] then []
    else
      assert ValidParameter(ps[0]);
      [ParameterKind(ps[0]), |ParameterBody(ps[0])|] + (ParameterBody(ps[0]) + EncodeParameters(ps[1..]))
  }

  function FixedPart(m: OpenMessage): (f: Bytes)
    requires ValidMessage(m)
    ensures |f| == 10
  {
    [4] + ToBe(m.asn, 2) + ToBe(m.holdTime, 2) + m.routerId + [|EncodeParameters(m.params)|]
  }

  function EncodeOpen(m: OpenMessage): Bytes
    requires ValidMessage(m)
  {
    FixedPart(m) + EncodeParameters(m.params)
  }

  // Every capability a message carries, in order, whichever parameter it is in.
  function AllCapabilities(ps: seq<Parameter>): seq<Capability> {
    if ps == [] then []
    else (if ps[0].Capabilities? then ps[0].caps else []) + AllCapabilities(ps[1..])
  }

  // The value of the last four-octet AS capability, or what was known before.
  function LastFourOctet(caps: seq<Capability>, known: Known): Known {
    if caps == [] then known
    else
      var last := caps[|caps| - 1];
      if last.code == CAP_FOUR_OCTET_AS && |last.value| == 4 then (BeValue(last.value), true)
      else LastFourOctet(caps[..|caps| - 1], known)
  }

  function Meaning(m: OpenMessage): OpenInfo {
    var (asn, four) := LastFourOctet(AllCapabilities(m.params), (m.asn, false));
    OpenInfo(asn, m.holdTime, m.routerId, four)
  }

  lemma {:induction false} LastAppend(a: seq<Capability>, b: seq<Capability>, known: Known)
    ensures LastFourOctet(a + b, known) == LastFourOctet(b, LastFourOctet(a, known))
  {
    if b == [] {
      assert a + b == a;
    } else {
      var n := |b| - 1;
      assert (a + b)[..|a| + n] == a + b[..n];
      LastAppend(a, b[..n], known);
    }
  }

  lemma LastCons(c: Capability, others: seq<Capability>, known: Known)
    ensures LastFourOctet([c] + others, known) == LastFourOctet(others, LastFourOctet([c], known))
    ensures LastFourOctet([c], known)
         == if c.code == CAP_FOUR_OCTET_AS && |c.value| == 4 then (BeValue(c.value), true) else known
  {
    LastAppend([c], others, known);
    assert [c][..0] == [];
  }

  /* ---------- completeness ---------- */

  lemma {:induction false} CapabilitiesComplete(caps: seq<Capability>, known: Known)
    requires ValidCapabilities(caps)
    ensures ScanCapabilities(EncodeCapabilities(caps), known) == Ok(LastFourOctet(caps, known))
  {
    if caps != [] {
      var c, others := caps[0], caps[1..];
      assert caps == [c] + others;
      var tail := EncodeCapabilities(others);
      TakeSplit([c.code, |c.value|], c.value + tail);
      TakeSplit(c.value, tail);
      LastCons(c, others, known);
      CapabilitiesComplete(others, LastFourOctet([c], known));
    }
  }

  lemma {:induction false} ParametersComplete(ps: seq<Parameter>, known: Known)
    requires ValidParameters(ps)
    ensures ScanParameters(EncodeParameters(ps), known) == Ok(LastFourOctet(AllCapabilities(ps), known))
  {
    if ps != [] {
      var p, others := ps[0], ps[1..];
      assert ValidParameter(p);
      var body, tail := ParameterBody(p), EncodeParameters(others);
      TakeSplit([ParameterKind(p), |body|], body + tail);
      TakeSplit(body, tail);
      if p.Capabilities? {
        CapabilitiesComplete(p.caps, known);
        LastAppend(p.caps, AllCapabilities(others), known);
        ParametersComplete(others, LastFourOctet(p.caps, known));
      } else {
        assert [] + AllCapabilities(others) == AllCapabilities(others);
        ParametersComplete(others, known);
      }
    }
  }

  lemma FixedFields(m: OpenMessage)
    requires ValidMessage(m)
    ensures var f := FixedPart(m);
            f[0] == 4 && U16(f[1], f[2]) == m.asn && U16(f[3], f[4]) == m.holdTime
            && f[5..9] == m.routerId && f[9] == |EncodeParameters(m.params)|
  {
    var f := FixedPart(m);
    TwoOctets(m.asn);
    TwoOctets(m.holdTime);
    assert f[1..3] == ToBe(m.asn, 2) && f[1] == f[1..3][0] && f[2] == f[1..3][1];
    assert f[3..5] == ToBe(m.holdTime, 2) && f[3] == f[3..5][0] && f[4] == f[3..5][1];
  }

  // Any encoded message is accepted with its meaning, unless its hold time is one or two
  // seconds; octets after the parameters are ignored.
  lemma OpenComplete(m: OpenMessage, extra: Bytes)
    requires ValidMessage(m)
    ensures ParseOpen(EncodeOpen(m) + extra) == if ValidHold(m.holdTime) then Ok(Meaning(m)) else Err(InvalidOpen)
  {
    var params := EncodeParameters(m.params);
    assert EncodeOpen(m) + extra == FixedPart(m) + (params + extra);
    TakeSplit(FixedPart(m), params + extra);
    TakeSplit(params, extra);
    FixedFields(m);
    ParametersComplete(m.params, (m.asn, false));
  }

  /* ---------- soundness ---------- */

  lemma CapabilitiesCons(c: Capability, others: seq<Capability>)
    requires |c.value| < 256 && ValidCapabilities(others)
    ensures ValidCapabilities([c] + others)
    ensures EncodeCapabilities([c] + others) == [c.code, |c.value|] + (c.value + EncodeCapabilities(others))
  {
    assert ([c] + others)[1..] == others;
  }

  lemma {:induction false} CapabilitiesSound(data: Bytes, known: Known) returns (caps: seq<Capability>)
    requires ScanCapabilities(data, known).Ok?
    ensures ValidCapabilities(caps) && EncodeCapabilities(caps) == data
    decreases |data|
  {
    if data == [] {
      caps := [];
    } else {
      var (head, body) := Take(data, 2).value;
      var (value, rest) := Take(body, head[1]).value;
      var c := Capability(head[0], value);
      var others := CapabilitiesSound(rest,
        if head[0] == CAP_FOUR_OCTET_AS && |value| == 4 then (BeValue(value), true) else known);
      caps := [c] + others;
      CapabilitiesCons(c, others);
      assert head == [c.code, |c.value|];
    }
  }

  lemma ParametersCons(p: Parameter, others: seq<Parameter>)
    requires ValidParameter(p) && ValidParameters(others)
    ensures ValidParameters([p] + others)
    ensures EncodeParameters([p] + others)
         == [ParameterKind(p), |ParameterBody(p)|] + (ParameterBody(p) + EncodeParameters(others))
  {
    assert ([p] + others)[1..] == others;
  }

  lemma {:induction false} ParametersSound(data: Bytes, known: Known) returns (ps: seq<Parameter>)
    requires ScanParameters(data, known).Ok?
    ensures ValidParameters(ps) && EncodeParameters(ps) == data
    decreases |data|
  {
    if data == [] {
      ps := [];
    } else {
      var (head, body) := Take(data, 2).value;
      var (raw, rest) := Take(body, head[1]).value;
      var p, others;
      if head[0] != PARAM_CAPABILITIES {
        p := Other(head[0], raw);
        others := ParametersSound(rest, known);
      } else {
        var caps := CapabilitiesSound(raw, known);
        p := Capabilities(caps);
        others := ParametersSound(rest, ScanCapabilities(raw, known).value);
      }
      ps := [p] + others;
      ParametersCons(p, others);
      assert head == [ParameterKind(p), |ParameterBody(p)|];
    }
  }

  lemma FixedFromFields(m: OpenMessage, f: Bytes)
    requires ValidMessage(m) && |f| == 10
    requires f[0] == 4 && U16(f[1], f[2]) == m.asn && U16(f[3], f[4]) == m.holdTime
    requires f[5..9] == m.routerId && f[9] == |EncodeParameters(m.params)|
    ensures FixedPart(m) == f
  {
    assert f == [f[0]] + [f[1], f[2]] + [f[3], f[4]] + f[5..9] + [f[9]];
    BeTwo([f[1], f[2]]);
    BeTwo([f[3], f[4]]);
    BeDigits([f[1], f[2]]);
    BeDigits([f[3], f[4]]);
  }

  // Every accepted input is an encoded message, followed by octets that play no part.
  lemma OpenSound(data: Bytes) returns (m: OpenMessage, extra: Bytes)
    requires ParseOpen(data).Ok?
    ensures ValidMessage(m) && ValidHold(m.holdTime) && data == EncodeOpen(m) + extra
    ensures ParseOpen(data) == Ok(Meaning(m))
  {
    var (f, rest) := Take(data, 10).value;
    var (params, tail) := Take(rest, f[9]).value;
    var ps := ParametersSound(params, (U16(f[1], f[2]), false));
    m, extra := OpenMessage(U16(f[1], f[2]), U16(f[3], f[4]), f[5..9], ps), tail;
    FixedFromFields(m, f);
    assert data == EncodeOpen(m) + extra;
    OpenComplete(m, extra);
  }

  // A message cut short anywhere is refused.
  lemma StrictPrefixRefused(m: OpenMessage, k: nat)
    requires ValidMessage(m) && k < |EncodeOpen(m)|
    ensures ParseOpen(EncodeOpen(m)[..k]).Err?
  {
    var data := EncodeOpen(m);
    if k >= 10 {
      assert data[..k][..10] == FixedPart(m);
    }
  }

  /* ---------- the builder ---------- */

  const SAFIS: seq<byte> := [1, 133]

  // The capabilities this speaker offers: unicast and FlowSpec for both families ...
  function Offered(): (caps: seq<Capability>)
    ensures |caps| == 4 && ValidCapabilities(caps)
  {
    [Capability(CAP_MULTIPROTOCOL, ToBe(1, 2) + [0, 1]), Capability(CAP_MULTIPROTOCOL, ToBe(1, 2) + [0, 133]),
     Capability(CAP_MULTIPROTOCOL, ToBe(2, 2) + [0, 1]), Capability(CAP_MULTIPROTOCOL, ToBe(2, 2) + [0, 133])]
  }

  // ... and four-octet AS numbers.
  function OwnCapabilities(asn: nat): (caps: seq<Capability>)
    ensures ValidCapabilities(caps)
  {
    Offered() + [Capability(CAP_FOUR_OCTET_AS, ToBe(asn, 4))]
  }

  function OwnMessage(asn: nat, hold: nat, router: Bytes): OpenMessage {
    OpenMessage(if asn > 65535 then AS_TRANS else asn, hold, router, [Capabilities(OwnCapabilities(asn))])
  }

  lemma {:induction false} EncodedAppend(caps: seq<Capability>, c: Capability)
    requires ValidCapabilities(caps) && |c.value| < 256
    ensures ValidCapabilities(caps + [c])
    ensures EncodeCapabilities(caps + [c]) == EncodeCapabilities(caps) + [c.code, |c.value|] + c.value
  {
    if caps == [] {
      assert caps + [c] == [c];
      assert EncodeCapabilities([c][1..]) == [];
    } else {
      assert (caps + [c])[1..] == caps[1..] + [c];
      EncodedAppend(caps[1..], c);
    }
  }

  lemma OwnMessageValid(asn: nat, hold: nat, router: Bytes)
    requires asn < 0x1_0000_0000 && hold < 65536 && |router| == 4
    requires |EncodeCapabilities(OwnCapabilities(asn))| == 30
    ensures ValidMessage(OwnMessage(asn, hold, router))
    ensures EncodeParameters(OwnMessage(asn, hold, router).params) == [2, 30] + EncodeCapabilities(OwnCapabilities(asn))
  {
    var p := Capabilities(OwnCapabilities(asn));
    assert ValidParameter(p);
    assert EncodeParameters([p][1..]) == [];
  }

  lemma OwnLength(asn: nat)
    ensures |EncodeCapabilities(OwnCapabilities(asn))| == 30
  {
    var caps := Offered();
    assert EncodeCapabilities([]) == [];
    EncodedAppend([], caps[0]);
    assert caps[..2] == [] + [caps[0]] + [caps[1]];
    EncodedAppend([] + [caps[0]], caps[1]);
    EncodedAppend(caps[..2], caps[2]);
    assert caps[..3] == caps[..2] + [caps[2]];
    EncodedAppend(caps[..3], caps[3]);
    assert caps == caps[..3] + [caps[3]];
    EncodedAppend(caps, Capability(CAP_FOUR_OCTET_AS, ToBe(asn, 4)));
  }

  lemma OfferedStep(afi: nat, i: nat)
    requires 1 <= afi < 3 && i < 2
    ensures EncodeCapabilities(Offered()[..2 * (afi - 1) + i + 1])
         == EncodeCapabilities(Offered()[..2 * (afi - 1) + i]) + [1, 4] + (ToBe(afi, 2) + [0, SAFIS[i]])
  {
    hide EncodeCapabilities, ToBe;
    var n := 2 * (afi - 1) + i;
    EncodedAppend(Offered()[..n], Offered()[n]);
    assert Offered()[..n] + [Offered()[n]] == Offered()[..n + 1];
  }

  method BuildCapabilities(asn: nat) returns (caps: Bytes)
    ensures caps == EncodeCapabilities(OwnCapabilities(asn))
  {
    caps := [];
    for afi := 1 to 3
      invariant caps == EncodeCapabilities(Offered()[..2 * (afi - 1)])
    {
      for i := 0 to 2
        invariant caps == EncodeCapabilities(Offered()[..2 * (afi - 1) + i])
      {
        OfferedStep(afi, i);
        caps := caps + [1, 4] + (ToBe(afi, 2) + [0, SAFIS[i]]);
      }
    }
    assert Offered()[..4] == Offered();
    EncodedAppend(Offered(), Capability(CAP_FOUR_OCTET_AS, ToBe(asn, 4)));
    caps := caps + [65, 4] + ToBe(asn, 4);
  }

  method BuildOpen(asn: nat, hold: nat, router: Bytes) returns (data: Bytes)
    requires asn < 0x1_0000_0000 && hold < 65536 && |router| == 4
    ensures ValidMessage(OwnMessage(asn, hold, router))
    ensures data == Framed(1, EncodeOpen(OwnMessage(asn, hold, router)))
  {
    var caps := BuildCapabilities(asn);
    OwnLength(asn);
    OwnBytes(asn, hold, router, caps);
    var body: Bytes := [4];
    body := body + ToBe(if asn > 65535 then AS_TRANS else asn, 2);
    body := body + ToBe(hold, 2);
    body := body + router;
    body := body + [(|caps| + 2) % 256, 2, |caps| % 256];
    body := body + caps;
    data := Message(1, body);
  }

  lemma OwnBytes(asn: nat, hold: nat, router: Bytes, caps: Bytes)
    requires asn < 0x1_0000_0000 && hold < 65536 && |router| == 4
    requires caps == EncodeCapabilities(OwnCapabilities(asn)) && |caps| == 30
    ensures ValidMessage(OwnMessage(asn, hold, router))
    ensures EncodeOpen(OwnMessage(asn, hold, router))
         == [4] + ToBe(if asn > 65535 then AS_TRANS else asn, 2) + ToBe(hold, 2) + router + [32, 2, 30] + caps
  {
    OwnMessageValid(asn, hold, router);
    var front := [4] + ToBe(if asn > 65535 then AS_TRANS else asn, 2) + ToBe(hold, 2) + router;
    Rejoin(front, [32], [2, 30], caps);
    assert [32] + [2, 30] == [32, 2, 30];
  }

  lemma Rejoin(a: Bytes, b: Bytes, c: Bytes, d: Bytes)
    ensures a + b + (c + d) == a + (b + c) + d
  {
  }

  // What this speaker sends is understood: the header announces an OPEN of the right size, the
  // body yields the AS number, hold time and router id, and no shorter body does.
  lemma BuiltOpenUnderstood(asn: nat, hold: nat, router: Bytes, k: nat)
    requires asn < 0x1_0000_0000 && hold < 65536 && |router| == 4
    ensures ValidMessage(OwnMessage(asn, hold, router))
    ensures var body := EncodeOpen(OwnMessage(asn, hold, router));
            && Header(Framed(1, body)[..19]) == Ok((1, |body|)) && Framed(1, body)[19..] == body
            && ParseOpen(body) == (if ValidHold(hold) then Ok(OpenInfo(asn, hold, router, true)) else Err(InvalidOpen))
            && (k < |body| ==> ParseOpen(body[..k]).Err?)
  {
    OwnLength(asn);
    OwnMessageValid(asn, hold, router);
    var m := OwnMessage(asn, hold, router);
    FrameRoundTrip(1, EncodeOpen(m));
    OpenComplete(m, []);
    assert EncodeOpen(m) + [] == EncodeOpen(m);
    OwnMeaning(asn, hold, router);
    if k < |EncodeOpen(m)| {
      StrictPrefixRefused(m, k);
    }
  }

  lemma OwnMeaning(asn: nat, hold: nat, router: Bytes)
    requires asn < 0x1_0000_0000
    ensures Meaning(OwnMessage(asn, hold, router)) == OpenInfo(asn, hold, router, true)
  {
    var caps := OwnCapabilities(asn);
    var ps := [Capabilities(caps)];
    assert AllCapabilities(ps[1..]) == [];
    assert AllCapabilities(ps) == caps + [] == caps;
    BeRoundTrip(asn, 4);
    assert Pow256(4) == 0x1_0000_0000;
  }
}
