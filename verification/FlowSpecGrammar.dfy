/** The FlowSpec encoding of RFC 8955 sections 4.1 and 4.2, and its agreement with the decoder. */
module FlowSpecGrammar {
  import opened Base
  import opened Bits
  import opened Octets
  import opened Prefixes
  import opened FlowSpec

  /* ---------- records as they stand on the wire ---------- */

  // An operator octet without its end flag (that one is set by position), and its value.
  datatype WireOp = WireOp(andBit: bool, code: nat, low: nat, value: Bytes)

  datatype WireComponent =
    | WirePrefixMatch(kind: nat, prefix: WirePrefix)
    | WireTests(kind: nat, ops: seq<WireOp>)

  // A rule's components; long says which of the two length forms it carries.
  datatype WireRule = WireRule(long: bool, components: seq<WireComponent>)

  predicate ValidOp(o: WireOp) {
    o.code < 4 && o.low < 16 && |o.value| == Pow2(o.code)
  }

  predicate ValidOps(ops: seq<WireOp>) {
    forall i | 0 <= i < |ops| :: ValidOp(ops[i])
  }

  predicate ValidComponent(c: WireComponent, afi: nat) {
    match c
    case WirePrefixMatch(kind, prefix) => IsPrefixKind(kind) && ValidWire(prefix, afi)
    case WireTests(kind, ops) => kind < 256 && !IsPrefixKind(kind) && ops != [] && ValidOps(ops)
  }

  predicate ValidComponents(cs: seq<WireComponent>, afi: nat) {
    forall i | 0 <= i < |cs| :: ValidComponent(cs[i], afi)
  }

  predicate ValidRule(r: WireRule, afi: nat) {
    && ValidComponents(r.components, afi)
    && |EncodeComponents(r.components, afi)| < (if r.long then 4096 else 240)
  }

  predicate ValidRules(rs: seq<WireRule>, afi: nat) {
    forall i | 0 <= i < |rs| :: ValidRule(rs[i], afi)
  }

  function OpOctet(o: WireOp, end: bool): byte
    requires ValidOp(o)
  {
    16 * (4 * ((if end then 2 else 0) + (if o.andBit then 1 else 0)) + o.code) + o.low
  }

  function EncodeOps(ops: seq<WireOp>): Bytes
    requires ValidOps(ops)
  {
    if ops == [] then [] else [OpOctet(ops[0], |ops| == 1)] + ops[0].value + EncodeOps(ops[1..])
  }

  function EncodeValue(c: WireComponent, afi: nat): Bytes
    requires ValidComponent(c, afi)
  {
    match c
    case WirePrefixMatch(_, prefix) => [prefix.len] + prefix.raw
    case WireTests(_, ops) => EncodeOps(ops)
  }

  function EncodeComponent(c: WireComponent, afi: nat): Bytes
    requires ValidComponent(c, afi)
  {
    [c.kind] + EncodeValue(c, afi)
  }

  function EncodeComponents(cs: seq<WireComponent>, afi: nat): Bytes
    requires ValidComponents(cs, afi)
  {
    if cs == [] then [] else EncodeComponent(cs[0], afi) + EncodeComponents(cs[1..], afi)
  }

  function EncodeLength(n: nat, long: bool): Bytes
    requires n < if long then 4096 else 240
  {
    if long then [240 + n / 256, n % 256] else [n]
  }

  function EncodeRules(rs: seq<WireRule>, afi: nat): Bytes
    requires ValidRules(rs, afi)
  {
    if rs == [] then []
    else
      var body := EncodeComponents(rs[0].components, afi);
      EncodeLength(|body|, rs[0].long) + body + EncodeRules(rs[1..], afi)
  }

  /* ---------- what the records are shown as ---------- */

  // The component types of section 4.2.2 of RFC 8955, from 1 on.
  const TYPE_NAMES: seq<Name> :=
    [DstPrefix, SrcPrefix, IpProto, Port, DstPort, SrcPort, IcmpType, IcmpCode, TcpFlags, PktLen, Dscp, Fragment]

  // The name of a type; 13 is the flow label of RFC 8956, in IPv6 rules only.
  function TypeName(kind: nat, afi: nat): Name {
    if 1 <= kind <= 12 then TYPE_NAMES[kind - 1]
    else if kind == 13 && afi == 2 then FlowLabel
    else TypeNumber(kind)
  }

  // TCP flags and fragments are tested bit by bit, with names for nine and four bits.
  predicate IsBitTest(kind: nat) {
    kind == 9 || kind == 12
  }

  function NamedBits(kind: nat): nat {
    if kind == 9 then 9 else 4
  }

  lemma TablesAgree(kind: byte, afi: nat)
    ensures ComponentName(kind, afi) == TypeName(kind, afi)
    ensures IsBitmaskKind(kind) == IsBitTest(kind) && (IsBitTest(kind) ==> NamedFlags(kind) == NamedBits(kind))
  {
  }

  function ShownOp(kind: nat, o: WireOp): Shown {
    var v := BeValue(o.value);
    if IsBitTest(kind) then
      var names := FlagNames(v, NamedBits(kind));
      if names == [] then Mask(Bit(o.low, 0), Bit(o.low, 1), v)
      else Flags(Bit(o.low, 0), Bit(o.low, 1), names)
    else
      Number(Bit(o.low, 2), Bit(o.low, 1), Bit(o.low, 0), if kind == 11 then Low(v, 6) else v)
  }

  function ShownOps(kind: nat, ops: seq<WireOp>): (r: seq<Shown>)
    ensures |r| == |ops|
    ensures forall i | 0 <= i < |ops| :: r[i] == ShownOp(kind, ops[i])
  {
    if ops == [] then [] else [ShownOp(kind, ops[0])] + ShownOps(kind, ops[1..])
  }

  // A FlowSpec prefix keeps its octets as they came: no bits are masked off.
  function ShownComponent(c: WireComponent, afi: nat): Component
    requires ValidComponent(c, afi)
  {
    match c
    case WirePrefixMatch(_, prefix) => PrefixMatch(Prefix(afi, Padded(prefix.raw, AddressSize(afi)), prefix.len))
    case WireTests(kind, ops) => Tests(ShownOps(kind, ops))
  }

  function Entries(cs: seq<WireComponent>, afi: nat): (r: seq<Entry>)
    requires ValidComponents(cs, afi)
    ensures |r| == |cs|
    ensures forall i | 0 <= i < |cs| :: r[i] == (cs[i].kind, ShownComponent(cs[i], afi))
  {
    if cs == [] then [] else [(cs[0].kind, ShownComponent(cs[0], afi))] + Entries(cs[1..], afi)
  }

  function ShownRule(r: WireRule, afi: nat): Rule
    requires ValidRule(r, afi)
  {
    NamedComponents(r.components, afi)
  }

  // Components under the names of their types, the last of each.
  function NamedComponents(cs: seq<WireComponent>, afi: nat): Rule
    requires ValidComponents(cs, afi)
  {
    if cs == [] then map[]
    else
      var last := cs[|cs| - 1];
      NamedComponents(cs[..|cs| - 1], afi)[TypeName(last.kind, afi) := ShownComponent(last, afi)]
  }

  lemma {:induction false} NamedAreFiled(cs: seq<WireComponent>, afi: nat)
    requires ValidComponents(cs, afi)
    ensures NamedComponents(cs, afi) == Filed(Entries(cs, afi), afi)
  {
    hide ShownComponent, TypeName, ComponentName;
    if cs != [] {
      var n := |cs| - 1;
      NamedAreFiled(cs[..n], afi);
      assert ValidComponent(cs[n], afi);
      TablesAgree(cs[n].kind, afi);
      assert Entries(cs, afi)[..n] == Entries(cs[..n], afi);
    }
  }

  lemma RuleIsFiled(r: WireRule, afi: nat)
    requires ValidRule(r, afi)
    ensures ShownRule(r, afi) == Filed(Entries(r.components, afi), afi)
  {
    NamedAreFiled(r.components, afi);
  }

  function ShownRules(rs: seq<WireRule>, afi: nat): (r: seq<Rule>)
    requires ValidRules(rs, afi)
    ensures |r| == |rs|
  {
    if rs == [] then [] else [ShownRule(rs[0], afi)] + ShownRules(rs[1..], afi)
  }

  /* ---------- operator octets ---------- */

  lemma OctetFields(b: byte)
    ensures IsEnd(b) == Bit(b, 7)
    ensures Width(b) == Pow2(Low(Shr(b, 4), 2))
    ensures DecodeOp(b).2 == (Bit(b, 2), Bit(b, 1), Bit(b, 0))
    ensures DecodeBitmaskOp(b).2 == (Bit(b, 0), Bit(b, 1))
  {
    assert Pow2(0) == 1 && Pow2(1) == 2 && Pow2(2) == 4 && Pow2(7) == 128;
    AndBit(b, 7);
    AndBit(b, 2);
    AndBit(b, 1);
    AndBit(b, 0);
    AndLow(Shr(b, 4), 2);
  }

  lemma OctetParts(o: WireOp, end: bool)
    requires ValidOp(o)
    ensures Low(OpOctet(o, end), 4) == o.low
    ensures Low(Shr(OpOctet(o, end), 4), 2) == o.code
    ensures Bit(OpOctet(o, end), 7) == end
  {
    var flags := (if end then 2 else 0) + (if o.andBit then 1 else 0);
    assert Pow2(4) == 16 && Pow2(2) == 4;
    var top := 4 * flags + o.code;
    ScaleMultiplies(top, 4);
    ScaleMultiplies(flags, 2);
    Compose(top, o.low, 4);
    Compose(flags, o.code, 2);
    ShrAdds(OpOctet(o, end), 4, 2);
    ShrAdds(OpOctet(o, end), 6, 1);
  }

  lemma {:induction false} ShrAdds(a: nat, j: nat, k: nat)
    ensures Shr(Shr(a, j), k) == Shr(a, j + k)
  {
    if j > 0 {
      ShrAdds(a / 2, j - 1, k);
    }
  }

  lemma ShownMatches(kind: nat, o: WireOp, end: bool)
    requires ValidOp(o)
    ensures Show(kind, OpOctet(o, end), BeValue(o.value)) == ShownOp(kind, o)
    ensures IsEnd(OpOctet(o, end)) == end && Width(OpOctet(o, end)) == |o.value|
  {
    var b := OpOctet(o, end);
    OctetFields(b);
    OctetParts(o, end);
    LowKeeps(b, 4, 0);
    LowKeeps(b, 4, 1);
    LowKeeps(b, 4, 2);
    DscpMask(BeValue(o.value));
  }

  lemma DscpMask(v: nat)
    ensures And(v, 0x3f) == Low(v, 6)
  {
    assert Pow2(6) == 64;
    AndLow(v, 6);
  }

  // Any octet is some operator octet.
  function OpFields(b: byte, value: Bytes): WireOp {
    WireOp(Bit(b, 6), Low(Shr(b, 4), 2), Low(b, 4), value)
  }

  lemma FieldsOctet(b: byte, value: Bytes)
    requires |value| == Width(b)
    ensures ValidOp(OpFields(b, value)) && OpOctet(OpFields(b, value), IsEnd(b)) == b
  {
    OctetFields(b);
    TwoFlags(b);
  }

  // An octet is its low four bits, the two above them, and two flags.
  lemma TwoFlags(b: byte)
    ensures b == 16 * (4 * ((if Bit(b, 7) then 2 else 0) + (if Bit(b, 6) then 1 else 0)) + Low(Shr(b, 4), 2))
                 + Low(b, 4)
    ensures Low(Shr(b, 4), 2) < 4 && Low(b, 4) < 16
  {
    hide Low, Shr;
    assert Pow2(2) == 4 && Pow2(4) == 16;
    var top := Shr(b, 4);
    var flags := Shr(top, 2);
    Recompose(b, 4);
    Recompose(top, 2);
    ShrAdds(b, 4, 2);
    ShrAdds(b, 6, 1);
    OneShift(flags);
    TwoBits(flags);
  }

  lemma OneShift(a: nat)
    ensures Shr(a, 1) == a / 2
  {
  }

  lemma TwoBits(flags: nat)
    requires flags < 4
    ensures flags == (if flags / 2 % 2 == 1 then 2 else 0) + (if flags % 2 == 1 then 1 else 0)
  {
  }

  /* ---------- one record at a time ---------- */

  lemma TestStep(b: byte, value: Bytes, tail: Bytes, kind: nat)
    requires |value| == Width(b)
    ensures TestList([b] + (value + tail), kind)
         == if IsEnd(b) then Ok(([Show(kind, b, BeValue(value))], tail))
            else ConsTest(Show(kind, b, BeValue(value)), TestList(tail, kind))
  {
    TakeOne(b, value + tail);
    TakeSplit(value, tail);
  }

  lemma ComponentStep(kind: byte, body: Bytes, afi: nat)
    requires ComponentValue(kind, body, afi).Ok?
    ensures ComponentList([kind] + body, afi)
         == Cons((kind, ComponentValue(kind, body, afi).value.0),
                 ComponentList(ComponentValue(kind, body, afi).value.1, afi))
  {
    TakeOne(kind, body);
  }

  lemma RuleStep(body: Bytes, long: bool, tail: Bytes)
    requires |body| < if long then 4096 else 240
    ensures EncodeLength(|body|, long) + (body + tail) != []
    ensures RuleFrame(EncodeLength(|body|, long) + (body + tail)) == Ok((body, tail))
  {
    var length := EncodeLength(|body|, long);
    TakeSplit(body, tail);
    if long {
      assert length + (body + tail) == [length[0]] + ([length[1]] + (body + tail));
      TakeOne(length[0], [length[1]] + (body + tail));
      TakeOne(length[1], body + tail);
    } else {
      TakeOne(length[0], body + tail);
    }
  }

  lemma OpsCons(o: WireOp, others: seq<WireOp>, kind: nat)
    requires ValidOp(o) && ValidOps(others)
    ensures ValidOps([o] + others)
    ensures EncodeOps([o] + others) == [OpOctet(o, others == [])] + o.value + EncodeOps(others)
    ensures ShownOps(kind, [o] + others) == [ShownOp(kind, o)] + ShownOps(kind, others)
  {
    assert ([o] + others)[1..] == others;
  }

  lemma ComponentsCons(c: WireComponent, others: seq<WireComponent>, afi: nat)
    requires ValidComponent(c, afi) && ValidComponents(others, afi)
    ensures ValidComponents([c] + others, afi)
    ensures EncodeComponents([c] + others, afi) == EncodeComponent(c, afi) + EncodeComponents(others, afi)
    ensures Entries([c] + others, afi) == [(c.kind, ShownComponent(c, afi))] + Entries(others, afi)
  {
    assert ([c] + others)[1..] == others;
  }

  lemma RulesCons(r: WireRule, others: seq<WireRule>, afi: nat)
    requires ValidRule(r, afi) && ValidRules(others, afi)
    ensures ValidRules([r] + others, afi)
    ensures EncodeRules([r] + others, afi)
         == EncodeLength(|EncodeComponents(r.components, afi)|, r.long)
            + EncodeComponents(r.components, afi) + EncodeRules(others, afi)
    ensures ShownRules([r] + others, afi) == [ShownRule(r, afi)] + ShownRules(others, afi)
  {
    assert ([r] + others)[1..] == others;
  }

  /* ---------- completeness: every encoding is decoded to its meaning ---------- */

  lemma JoinTail(front: Bytes, middle: Bytes, end: Bytes)
    ensures front + (middle + end) == (front + middle) + end
  {
  }

  lemma Regroup(a: Bytes, b: Bytes, c: Bytes, d: Bytes)
    ensures a + b + c + d == a + (b + (c + d))
  {
  }

  lemma {:induction false} OpsComplete(kind: nat, ops: seq<WireOp>, tail: Bytes)
    requires ops != [] && ValidOps(ops)
    ensures TestList(EncodeOps(ops) + tail, kind) == Ok((ShownOps(kind, ops), tail))
  {
    var o, others := ops[0], ops[1..];
    assert ops == [o] + others;
    var b := OpOctet(o, others == []);
    OpsCons(o, others, kind);
    Regroup([b], o.value, EncodeOps(others), tail);
    ShownMatches(kind, o, others == []);
    TestStep(b, o.value, EncodeOps(others) + tail, kind);
    if others == [] {
      assert EncodeOps(others) + tail == tail;
      assert ShownOps(kind, ops) == [ShownOp(kind, o)];
    } else {
      OpsComplete(kind, others, tail);
    }
  }

  lemma ComponentComplete(c: WireComponent, afi: nat, tail: Bytes)
    requires afi == AFI_IPV4 || afi == AFI_IPV6
    requires ValidComponent(c, afi)
    ensures ComponentValue(c.kind, EncodeValue(c, afi) + tail, afi) == Ok((ShownComponent(c, afi), tail))
  {
    match c
    case WirePrefixMatch(kind, prefix) =>
      var data := [prefix.len] + prefix.raw + tail;
      assert EncodeValue(c, afi) + tail == data;
      assert data[1..1 + |prefix.raw|] == prefix.raw;
      assert data[1 + |prefix.raw|..] == tail;
    case WireTests(kind, ops) =>
      OpsComplete(kind, ops, tail);
  }

  lemma ComponentsStep(c: WireComponent, others: seq<WireComponent>, afi: nat)
    requires afi == AFI_IPV4 || afi == AFI_IPV6
    requires ValidComponent(c, afi) && ValidComponents(others, afi)
    requires ComponentList(EncodeComponents(others, afi), afi) == Ok(Entries(others, afi))
    ensures ValidComponents([c] + others, afi)
    ensures ComponentList(EncodeComponents([c] + others, afi), afi) == Ok(Entries([c] + others, afi))
  {
    ComponentsCons(c, others, afi);
    var value, tail := EncodeValue(c, afi), EncodeComponents(others, afi);
    JoinTail([c.kind], value, tail);
    ComponentComplete(c, afi, tail);
    ComponentStep(c.kind, value + tail, afi);
  }

  lemma {:induction false} ComponentsComplete(cs: seq<WireComponent>, afi: nat)
    requires afi == AFI_IPV4 || afi == AFI_IPV6
    requires ValidComponents(cs, afi)
    ensures ComponentList(EncodeComponents(cs, afi), afi) == Ok(Entries(cs, afi))
  {
    if cs != [] {
      ComponentsComplete(cs[1..], afi);
      ComponentsStep(cs[0], cs[1..], afi);
      assert cs == [cs[0]] + cs[1..];
    }
  }

  lemma RulesStep(r: WireRule, others: seq<WireRule>, afi: nat)
    requires afi == AFI_IPV4 || afi == AFI_IPV6
    requires ValidRule(r, afi) && ValidRules(others, afi)
    requires RuleList(EncodeRules(others, afi), afi) == Ok(ShownRules(others, afi))
    ensures ValidRules([r] + others, afi)
    ensures RuleList(EncodeRules([r] + others, afi), afi) == Ok(ShownRules([r] + others, afi))
  {
    var body, tail := EncodeComponents(r.components, afi), EncodeRules(others, afi);
    RulesCons(r, others, afi);
    JoinTail(EncodeLength(|body|, r.long), body, tail);
    RuleStep(body, r.long, tail);
    ComponentsComplete(r.components, afi);
    RuleIsFiled(r, afi);
  }

  lemma {:induction false} RulesComplete(rs: seq<WireRule>, afi: nat)
    requires afi == AFI_IPV4 || afi == AFI_IPV6
    requires ValidRules(rs, afi)
    ensures RuleList(EncodeRules(rs, afi), afi) == Ok(ShownRules(rs, afi))
  {
    if rs != [] {
      RulesComplete(rs[1..], afi);
      RulesStep(rs[0], rs[1..], afi);
      assert rs == [rs[0]] + rs[1..];
    }
  }

  /* ---------- soundness: every accepted input is an encoding ---------- */

  lemma SplitOp(data: Bytes, n: nat)
    requires n < |data|
    ensures data == [data[0]] + (data[1..][..n] + data[1..][n..])
  {
  }

  lemma {:induction false} OpsSound(data: Bytes, kind: nat) returns (ops: seq<WireOp>)
    requires TestList(data, kind).Ok?
    ensures ops != [] && ValidOps(ops)
    ensures data == EncodeOps(ops) + TestList(data, kind).value.1
    ensures TestList(data, kind).value.0 == ShownOps(kind, ops)
    decreases |data|
  {
    var b, n := data[0], Width(data[0]);
    var value, tail := data[1..][..n], data[1..][n..];
    var o := OpFields(b, value);
    SplitOp(data, n);
    FieldsOctet(b, value);
    ShownMatches(kind, o, IsEnd(b));
    if IsEnd(b) {
      ops := [o];
      OpsCons(o, [], kind);
      assert [o] + [] == [o];
      LastOp(b, value, tail);
    } else {
      var others := OpsSound(tail, kind);
      OpsCons(o, others, kind);
      ops := [o] + others;
      Regroup([b], value, EncodeOps(others), TestList(tail, kind).value.1);
    }
  }

  lemma LastOp(b: byte, value: Bytes, tail: Bytes)
    ensures [b] + value + [] + tail == [b] + (value + tail)
  {
  }

  lemma ComponentSound(kind: byte, data: Bytes, afi: nat) returns (c: WireComponent)
    requires ComponentValue(kind, data, afi).Ok?
    ensures ValidComponent(c, afi) && c.kind == kind
    ensures [kind] + data == EncodeComponent(c, afi) + ComponentValue(kind, data, afi).value.1
    ensures ComponentValue(kind, data, afi).value.0 == ShownComponent(c, afi)
  {
    if IsPrefixKind(kind) {
      var n := Octets8(data[0]);
      c := WirePrefixMatch(kind, WirePrefix(data[0], data[1..1 + n]));
      assert data == [data[0]] + data[1..1 + n] + data[1 + n..];
    } else {
      var ops := OpsSound(data, kind);
      c := WireTests(kind, ops);
    }
  }

  lemma {:induction false} ComponentsSound(data: Bytes, afi: nat) returns (cs: seq<WireComponent>)
    requires ComponentList(data, afi).Ok?
    ensures ValidComponents(cs, afi)
    ensures EncodeComponents(cs, afi) == data
    ensures ComponentList(data, afi).value == Entries(cs, afi)
    decreases |data|
  {
    if data == [] {
      cs := [];
    } else {
      var kind, body := data[0], data[1..];
      var c := ComponentSound(kind, body, afi);
      var rest := ComponentValue(kind, body, afi).value.1;
      var others := ComponentsSound(rest, afi);
      ComponentsCons(c, others, afi);
      cs := [c] + others;
      assert data == [kind] + body;
    }
  }

  // The frame of the first rule of an input.
  lemma FrameSound(data: Bytes)
    requires data != [] && RuleFrame(data).Ok?
    ensures var (body, tail) := RuleFrame(data).value; var long := data[0] >= 240;
            |body| < (if long then 4096 else 240) && data == EncodeLength(|body|, long) + body + tail
  {
    var (body, tail) := RuleFrame(data).value;
    var rest := Take(data, 1).value.1;
    if data[0] >= 240 {
      var after := Take(rest, 1).value.1;
      assert body + tail == after;
      assert EncodeLength(|body|, true) == [data[0], rest[0]];
      assert data == [data[0], rest[0]] + after;
    }
  }

  lemma {:induction false} RulesSound(data: Bytes, afi: nat) returns (rs: seq<WireRule>)
    requires RuleList(data, afi).Ok?
    ensures ValidRules(rs, afi)
    ensures EncodeRules(rs, afi) == data
    ensures RuleList(data, afi).value == ShownRules(rs, afi)
    decreases |data|
  {
    if data == [] {
      rs := [];
    } else {
      FrameSound(data);
      var (body, tail) := RuleFrame(data).value;
      var long := data[0] >= 240;
      var cs := ComponentsSound(body, afi);
      var others := RulesSound(tail, afi);
      RulesCons(WireRule(long, cs), others, afi);
      RuleIsFiled(WireRule(long, cs), afi);
      rs := [WireRule(long, cs)] + others;
    }
  }
}
