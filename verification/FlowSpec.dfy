/** FlowSpec NLRI: rules made of typed components, each a prefix or a list of operator/value tests. */
module FlowSpec {
  import opened Base
  import opened Bits
  import opened Octets
  import opened Prefixes

  datatype Name =
    | DstPrefix | SrcPrefix | IpProto | Port | DstPort | SrcPort | IcmpType | IcmpCode
    | TcpFlags | PktLen | Dscp | Fragment | FlowLabel
    | TypeNumber(kind: nat)

  // One shown test: a comparison with a number, or a bit match shown by flag names when the
  // value has any named flag and by its number when it has none.
  datatype Shown =
    | Number(lt: bool, gt: bool, eq: bool, value: nat)
    | Flags(all: bool, negated: bool, names: seq<nat>)
    | Mask(all: bool, negated: bool, value: nat)

  datatype Component = PrefixMatch(prefix: Prefix) | Tests(tests: seq<Shown>)

  type Rule = map<Name, Component>

  function ComponentName(kind: byte, afi: nat): Name {
    if afi == AFI_IPV6 && kind == 13 then FlowLabel
    else match kind
      case 1 => DstPrefix
      case 2 => SrcPrefix
      case 3 => IpProto
      case 4 => Port
      case 5 => DstPort
      case 6 => SrcPort
      case 7 => IcmpType
      case 8 => IcmpCode
      case 9 => TcpFlags
      case 10 => PktLen
      case 11 => Dscp
      case 12 => Fragment
      case _ => TypeNumber(kind)
  }

  lemma NameInjective(k: byte, k': byte, afi: nat)
    ensures ComponentName(k, afi) == ComponentName(k', afi) <==> k == k'
  {
  }

  predicate IsPrefixKind(kind: nat) {
    kind == 1 || kind == 2
  }

  predicate IsBitmaskKind(kind: nat) {
    kind == 9 || kind == 12
  }

  /* ---------- operators ---------- */

  // The end flag, the value width in octets, and the three comparison bits.
  function DecodeOp(op: byte): (bool, nat, (bool, bool, bool)) {
    (And(op, 0x80) != 0, Pow2(And(Shr(op, 4), 0x03)), (And(op, 0x04) != 0, And(op, 0x02) != 0, And(op, 0x01) != 0))
  }

  // The end flag, the value width in octets, and the match-all and negate bits.
  function DecodeBitmaskOp(op: byte): (bool, nat, (bool, bool)) {
    (And(op, 0x80) != 0, Pow2(And(Shr(op, 4), 0x03)), (And(op, 0x01) != 0, And(op, 0x02) != 0))
  }

  // Positions of the set bits among the lowest n.
  function FlagNames(value: nat, n: nat): seq<nat> {
    if n == 0 then []
    else FlagNames(value, n - 1) + if And(value, Pow2(n - 1)) != 0 then [n - 1] else []
  }

  method CollectFlagNames(value: nat, n: nat) returns (names: seq<nat>)
    ensures names == FlagNames(value, n)
  {
    names := [];
    for bit := 0 to n
      invariant names == FlagNames(value, bit)
    {
      if And(value, Pow2(bit)) != 0 {
        names := names + [bit];
      }
    }
  }

  // Nine TCP flags have names, and four fragment flags.
  function NamedFlags(kind: nat): nat {
    if kind == 9 then 9 else 4
  }

  function ShowNumber(kind: nat, op: byte, value: nat): Shown {
    var (lt, gt, eq) := DecodeOp(op).2;
    Number(lt, gt, eq, if kind == 11 then And(value, 0x3f) else value)
  }

  function ShowMask(kind: nat, op: byte, value: nat): Shown {
    var (all, negated) := DecodeBitmaskOp(op).2;
    var names := FlagNames(value, NamedFlags(kind));
    if names == [] then Mask(all, negated, value) else Flags(all, negated, names)
  }

  function Show(kind: nat, op: byte, value: nat): Shown {
    if IsBitmaskKind(kind) then ShowMask(kind, op, value) else ShowNumber(kind, op, value)
  }

  function IsEnd(op: byte): bool {
    DecodeOp(op).0
  }

  function Width(op: byte): (n: nat)
    ensures n > 0
  {
    DecodeOp(op).1
  }

  /* ---------- what an input means ---------- */

  type Partial = Result<(seq<Shown>, Bytes)>

  function ConsTest(x: Shown, tail: Partial): Partial {
    match tail
    case Ok((tests, rest)) => Ok(([x] + tests, rest))
    case Err(e) => Err(e)
  }

  function JoinTests(front: seq<Shown>, tail: Partial): Partial {
    match tail
    case Ok((tests, rest)) => Ok((front + tests, rest))
    case Err(e) => Err(e)
  }

  // Operator/value pairs up to and including the first with the end flag, and what follows them.
  function TestList(data: Bytes, kind: nat): (r: Partial)
    ensures r.Ok? ==> |r.value.1| < |data|
    decreases |data|
  {
    var (head, body) :- Take(data, 1);
    var op := head[0];
    var (raw, tail) :- Take(body, Width(op));
    var shown := Show(kind, op, BeValue(raw));
    if IsEnd(op) then Ok(([shown], tail)) else ConsTest(shown, TestList(tail, kind))
  }

  // A length octet and the address octets it calls for, at the given offset.
  function ParsedPrefix(data: Bytes, offset: nat, afi: nat): Option<(Prefix, nat)> {
    if offset >= |data| then None
    else
      var len := data[offset];
      if len > MaxBits(afi) then None
      else
        var n := Octets8(len);
        if offset + 1 + n > |data| then None
        else match PrefixText(data[offset + 1..offset + 1 + n], len, afi, false)
          case None => None
          case Some(prefix) => Some((prefix, offset + 1 + n))
  }

  method ParsePrefix(data: Bytes, start: nat, afi: nat) returns (r: Option<(Prefix, nat)>)
    ensures r == ParsedPrefix(data, start, afi)
  {
    var offset := start;
    if offset >= |data| {
      return None;
    }
    var prefixLen := data[offset];
    offset := offset + 1;
    if prefixLen > MaxBits(afi) {
      return None;
    }
    var numBytes := Octets8(prefixLen);
    if offset + numBytes > |data| {
      return None;
    }
    var prefix := PrefixString(data[offset..offset + numBytes], prefixLen, afi, false);
    if prefix.None? {
      return None;
    }
    return Some((prefix.value, offset + numBytes));
  }

  type Entry = (byte, Component)

  // One component's value and the input after it.
  function ComponentValue(kind: byte, data: Bytes, afi: nat): (r: Result<(Component, Bytes)>)
    ensures r.Ok? ==> |r.value.1| < |data|
  {
    if IsPrefixKind(kind) then
      match ParsedPrefix(data, 0, afi)
      case None => Err(InvalidFlowSpecPrefix)
      case Some((prefix, used)) => Ok((PrefixMatch(prefix), data[used..]))
    else
      var (tests, rest) :- TestList(data, kind);
      Ok((Tests(tests), rest))
  }

  // The components in the order they come.
  function ComponentList(data: Bytes, afi: nat): Result<seq<Entry>>
    decreases |data|
  {
    if data == [] then Ok([])
    else
      var (head, body) := Take(data, 1).value;
      var (value, rest) :- ComponentValue(head[0], body, afi);
      Cons((head[0], value), ComponentList(rest, afi))
  }

  // Components filed by name; a repeated name keeps the last one.
  function Filed(entries: seq<Entry>, afi: nat): Rule {
    if entries == [] then map[]
    else
      var (kind, value) := entries[|entries| - 1];
      Filed(entries[..|entries| - 1], afi)[ComponentName(kind, afi) := value]
  }

  function OneRule(data: Bytes, afi: nat): Result<Rule> {
    var entries :- ComponentList(data, afi);
    Ok(Filed(entries, afi))
  }

  // The octets of the first rule, by its one- or two-octet length, and the rules after it.
  function RuleFrame(data: Bytes): (r: Result<(Bytes, Bytes)>)
    requires data != []
    ensures r.Ok? ==> |r.value.1| < |data|
  {
    var (head, body) := Take(data, 1).value;
    if head[0] < 240 then Take(body, head[0])
    else
      var (low, body) :- Take(body, 1);
      Take(body, U16(head[0] - 240, low[0]))
  }

  function RuleList(data: Bytes, afi: nat): Result<seq<Rule>>
    decreases |data|
  {
    if data == [] then Ok([])
    else
      var (raw, tail) :- RuleFrame(data);
      var rule :- OneRule(raw, afi);
      Cons(rule, RuleList(tail, afi))
  }

  /* ---------- the decoder's loops ---------- */

  method ReadTests(data: Bytes, kind: byte) returns (r: Partial)
    ensures r == TestList(data, kind)
  {
    var values := [];
    var rest := data;
    var end := false;
    assert forall t: Partial :: JoinTests([], t) == t by {
      forall t: Partial ensures JoinTests([], t) == t {
        if t.Ok? {
          assert [] + t.value.0 == t.value.0;
        }
      }
    }
    while !end
      invariant !end ==> TestList(data, kind) == JoinTests(values, TestList(rest, kind))
      invariant end ==> TestList(data, kind) == Ok((values, rest))
      decreases !end, |rest|
    {
      var head :- Take(rest, 1);
      var op := head.0[0];
      var width := Width(op);
      end := IsEnd(op);
      var body :- Take(head.1, width);
      WidthBound(op);
      var value := ReadBeInt(body.0);
      var shown;
      if IsBitmaskKind(kind) {
        var names := CollectFlagNames(value, NamedFlags(kind));
        var (all, negated) := DecodeBitmaskOp(op).2;
        shown := if names == [] then Mask(all, negated, value) else Flags(all, negated, names);
      } else {
        shown := ShowNumber(kind, op, value);
      }
      JoinConsTest(values, shown, TestList(body.1, kind));
      values := values + [shown];
      rest := body.1;
    }
    return Ok((values, rest));
  }

  lemma JoinConsTest(front: seq<Shown>, x: Shown, tail: Partial)
    ensures JoinTests(front, ConsTest(x, tail)) == JoinTests(front + [x], tail)
  {
    if tail.Ok? {
      assert front + ([x] + tail.value.0) == (front + [x]) + tail.value.0;
    }
  }

  method Components(data: Bytes, afi: nat) returns (r: Result<Rule>)
    ensures r == OneRule(data, afi)
  {
    var result: Rule := map[];
    ghost var entries: seq<Entry> := [];
    var rest := data;
    JoinNothing(ComponentList(data, afi));
    while rest != []
      invariant ComponentList(data, afi) == Join(entries, ComponentList(rest, afi))
      invariant result == Filed(entries, afi)
      decreases |rest|
    {
      var head := Take(rest, 1).value;
      var kind, body := head.0[0], head.1;
      var name := ComponentName(kind, afi);
      var value;
      if kind == 1 || kind == 2 {
        var parsed := ParsePrefix(body, 0, afi);
        if parsed.None? {
          return Err(InvalidFlowSpecPrefix);
        }
        var used := Take(body, parsed.value.1).value;
        value := PrefixMatch(parsed.value.0);
        rest := used.1;
      } else {
        var tests := ReadTests(body, kind);
        var read :- tests;
        value := Tests(read.0);
        rest := read.1;
      }
      assert ComponentValue(kind, body, afi) == Ok((value, rest));
      JoinCons(entries, (kind, value), ComponentList(rest, afi));
      entries := entries + [(kind, value)];
      assert entries[..|entries| - 1] + [(kind, value)] == entries;
      result := result[name := value];
    }
    assert entries + [] == entries;
    return Ok(result);
  }

  method Flowspec(data: Bytes, afi: nat) returns (r: Result<seq<Rule>>)
    ensures r == RuleList(data, afi)
  {
    var routes := [];
    var rest := data;
    JoinNothing(RuleList(data, afi));
    while rest != []
      invariant RuleList(data, afi) == Join(routes, RuleList(rest, afi))
      decreases |rest|
    {
      var head := Take(rest, 1).value;
      var first := head.0[0];
      var body := head.1;
      var len: nat := first;
      if first >= 240 {
        var low :- Take(body, 1);
        LongLength(first, low.0[0]);
        len := Or(Shl(And(first, 15), 8, TWO64), low.0[0]);
        body := low.1;
      }
      var cut :- Take(body, len);
      var rule := Components(cut.0, afi);
      var done :- rule;
      JoinCons(routes, done, RuleList(cut.1, afi));
      routes := routes + [done];
      rest := cut.1;
    }
    assert routes + [] == routes;
    return Ok(routes);
  }

  // The two-octet length carries twelve bits.
  lemma LongLength(first: byte, low: byte)
    requires first >= 240
    ensures Or(Shl(And(first, 15), 8, TWO64), low) == U16(first - 240, low)
  {
    LowNibble(first - 240);
    ShiftByte(first - 240);
    assert Pow2(8) == 256;
    OrDisjoint(first - 240, low, 8);
  }

  lemma LowNibble(x: nat)
    requires x < 16
    ensures And(240 + x, 15) == x
  {
    assert Pow2(4) == 16 && Scale(15, 4) == 240;
    AndLow(240 + x, 4);
    Compose(15, x, 4);
  }

  lemma ShiftByte(x: nat)
    requires x < 16
    ensures Shl(x, 8, TWO64) == Scale(x, 8) == x * 256
  {
    assert Pow2(8) == 256;
    ScaleMultiplies(x, 8);
  }

  lemma WidthBound(op: byte)
    ensures Width(op) <= 8
  {
    var code := And(Shr(op, 4), 3);
    assert code <= 3;
    Pow2Monotone(code, 3);
    assert Pow2(3) == 8;
  }
}
