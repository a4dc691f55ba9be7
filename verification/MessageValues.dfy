/**
 * What an accepted UPDATE says besides its routes, in terms of the values its attributes hold: its
 * actions, its communities, its paths and its next hops.
 */
module MessageValues {
  import opened Base
  import opened Bits
  import opened Octets
  import opened Prefixes
  import opened Attributes
  import opened AttributeGrammar
  import opened AttributeValues
  import opened UpdateCodec
  import opened UpdateGrammar
  import UpdateProperties
  import opened AsPaths

  // An attribute's code and the value it holds, if it holds one.
  datatype Held = Held(code: byte, value: Option<WireValue>)

  predicate ValidHeld(h: Held, asnLen: nat) {
    h.value.Some? ==> ValidValue(h.code, h.value.value, asnLen)
  }

  predicate AllValid(helds: seq<Held>, asnLen: nat) {
    forall i | 0 <= i < |helds| :: ValidHeld(helds[i], asnLen)
  }

  // The attribute's octets are the encoding of that value; or of no value its code may hold.
  ghost predicate Holds(a: WireAttr, h: Held, asnLen: nat) {
    && h.code == a.code && ValidHeld(h, asnLen)
    && (h.value.Some? ==> EncodeWireValue(h.code, h.value.value, asnLen) == a.data)
    && (h.value.None? ==>
          forall v | ValidValue(h.code, v, asnLen) :: EncodeWireValue(h.code, v, asnLen) != a.data)
  }

  ghost predicate AllHold(attrs: seq<WireAttr>, helds: seq<Held>, asnLen: nat) {
    |helds| == |attrs| && forall i | 0 <= i < |attrs| :: Holds(attrs[i], helds[i], asnLen)
  }

  /* ---------- what the values say ---------- */

  // An action as shown when the given FlowSpec next hop is known: a redirection to the next hop,
  // in any of its three forms, then names it.
  function ShownWith(a: WireAction, hop: Hop): Action
    requires ValidAction(a)
  {
    if hop == NoHop then ShownAction(a)
    else
      match a
      case ToHop(_, _) => ToAddress(false, 4, hop, None)
      case ToIp(address, flags) =>
        if IsZero(address) && flags < 2 then ToAddress(flags == 1, 4, hop, None) else ShownAction(a)
      case JuniperToHop(_) => JuniperToAddress(HexText(EncodeAction(a)), hop)
      case _ => ShownAction(a)
  }

  function ShownWith6(a: WireAction6, hop: Hop): Action
    requires ValidAction6(a)
  {
    if hop != NoHop && a.ToIp6? && IsZero(a.address) && a.flags < 2 then ToAddress(a.flags == 1, 4, hop, None)
    else ShownAction6(a)
  }

  function ActionsIn(h: Held, hop: Hop, asnLen: nat): seq<Action>
    requires ValidHeld(h, asnLen)
  {
    match h.value
    case Some(WActions(acts)) => seq(|acts|, i requires 0 <= i < |acts| => ShownWith(acts[i], hop))
    case Some(WActions6(acts)) => seq(|acts|, i requires 0 <= i < |acts| => ShownWith6(acts[i], hop))
    case _ => []
  }

  // All actions in the order of the attributes that hold them.
  function ActionsHeld(helds: seq<Held>, hop: Hop, asnLen: nat): seq<Action>
    requires AllValid(helds, asnLen)
  {
    if helds == [] then []
    else
      var n := |helds| - 1;
      ActionsHeld(helds[..n], hop, asnLen) + ActionsIn(helds[n], hop, asnLen)
  }

  function CommunitiesHeld(helds: seq<Held>): seq<Community> {
    if helds == [] then []
    else
      var last := helds[|helds| - 1].value;
      CommunitiesHeld(helds[..|helds| - 1])
      + if last.Some? && last.value.WCommunities? then last.value.communities else []
  }

  // The numbers of the last path that an attribute of the given code holds.
  function PathHeld(helds: seq<Held>, code: byte): seq<nat> {
    if helds == [] then []
    else
      var Held(c, v) := helds[|helds| - 1];
      if c == code && v.Some? && v.value.WPath? then Flat(v.value.path) else PathHeld(helds[..|helds| - 1], code)
  }

  // The address in the last NEXT_HOP attribute, if that holds one.
  function HopHeld(helds: seq<Held>): Hop {
    if helds == [] then NoHop
    else
      var Held(c, v) := helds[|helds| - 1];
      if c != 3 then HopHeld(helds[..|helds| - 1])
      else if v.Some? && v.value.WAddress? then Hop4(v.value.octets)
      else NoHop
  }

  // The next hop of the last MP_REACH_NLRI with FlowSpec rules that has one.
  function LastFlowHop(attrs: seq<WireAttr>): Hop {
    if attrs == [] then NoHop
    else
      var own := FlowHopOf(attrs[|attrs| - 1]);
      if own != NoHop then own else LastFlowHop(attrs[..|attrs| - 1])
  }

  function FlowHopOf(a: WireAttr): Hop {
    if a.code != 14 then NoHop
    else match ReadMpHead(14, a.data)
      case Err(_) => NoHop
      case Ok(head) => if (head.afi == 1 || head.afi == 2) && head.safi == 133 then head.nextHop else NoHop
  }

  /* ---------- one attribute ---------- */

  lemma ValueHeld(a: WireAttr, asnLen: nat) returns (h: Held)
    requires asnLen == 2 || asnLen == 4
    ensures Holds(a, h, asnLen)
  {
    hide Decoded, ValidValue, EncodeWireValue, ShownValue;
    if IsMultiProtocol(a.code) {
      NoPlainValue(a.code, asnLen);
      h := Held(a.code, None);
    } else if Decoded(a.code, a.data, asnLen).Ok? {
      var v := ValueSound(a.code, a.data, asnLen);
      h := Held(a.code, Some(v));
    } else {
      h := Held(a.code, None);
      forall v | ValidValue(a.code, v, asnLen) ensures EncodeWireValue(a.code, v, asnLen) != a.data {
        ValueComplete(a.code, v, asnLen);
      }
    }
  }

  lemma NoPlainValue(code: byte, asnLen: nat)
    requires IsMultiProtocol(code)
    ensures forall v :: !ValidValue(code, v, asnLen)
  {
  }

  lemma {:induction false} ValuesHeld(attrs: seq<WireAttr>, asnLen: nat) returns (helds: seq<Held>)
    requires asnLen == 2 || asnLen == 4
    ensures AllHold(attrs, helds, asnLen)
  {
    hide Holds;
    if attrs == [] {
      helds := [];
    } else {
      var front := ValuesHeld(attrs[..|attrs| - 1], asnLen);
      var last := ValueHeld(attrs[|attrs| - 1], asnLen);
      helds := front + [last];
    }
  }

  // What the decoder makes of an attribute that holds a value, and of one that does not.
  lemma ContentHeld(a: WireAttr, h: Held, asnLen: nat)
    requires (asnLen == 2 || asnLen == 4) && Holds(a, h, asnLen)
    ensures h.value.Some? ==> ContentOf(a, asnLen) == Value(ShownValue(h.code, h.value.value, asnLen))
    ensures h.value.None? && !IsMultiProtocol(a.code) ==> ContentOf(a, asnLen).Raw?
    ensures h.value.None? && IsMultiProtocol(a.code) && ContentOf(a, asnLen).Value? ==>
              ContentOf(a, asnLen).value.MultiProtocol?
  {
    hide ValidValue, EncodeWireValue, ShownValue;
    if h.value.Some? {
      hide Decoded;
      ValueComplete(h.code, h.value.value, asnLen);
    } else if !IsMultiProtocol(a.code) {
      hide Decoded;
      if Decoded(a.code, a.data, asnLen).Ok? {
        var v := ValueSound(a.code, a.data, asnLen);
      }
    }
  }

  // The parts of an entry that anything else depends on.
  lemma PartsHeld(a: WireAttr, h: Held, asnLen: nat)
    requires (asnLen == 2 || asnLen == 4) && Holds(a, h, asnLen)
    ensures ActionsIn(h, NoHop, asnLen)
         == if a.code == 16 || a.code == 25 then ActionsOf(ContentOf(a, asnLen)) else []
    ensures CommunitiesIn(AttrOf(a, asnLen)) == CommunitiesHeld([h])
    ensures a.code == 3 ==> HopOf(ContentOf(a, asnLen)) == HopHeld([h])
  {
    hide Decoded, EncodeWireValue, Holds;
    HoldsValid(a, h, asnLen);
    ContentHeld(a, h, asnLen);
    assert [h][..0] == [];
    if h.value.Some? && h.value.value.WActions? {
      var acts := h.value.value.actions;
      assert ActionsIn(h, NoHop, asnLen) == Mapped(acts, ShownAction);
    }
    if h.value.Some? && h.value.value.WActions6? {
      var acts := h.value.value.actions6;
      assert ActionsIn(h, NoHop, asnLen) == Mapped(acts, ShownAction6);
    }
  }

  lemma HoldsValid(a: WireAttr, h: Held, asnLen: nat)
    requires Holds(a, h, asnLen)
    ensures h.code == a.code && ValidHeld(h, asnLen)
  {
  }

  /* ---------- all attributes ---------- */

  // What has been gathered from some attributes, in terms of the values they hold.
  predicate Collected(p: Progress, attrs: seq<WireAttr>, helds: seq<Held>, asnLen: nat) {
    && AllValid(helds, asnLen) && p.actions == ActionsHeld(helds, NoHop, asnLen)
    && p.nextHop == HopHeld(helds) && p.flowNextHop == LastFlowHop(attrs)
  }

  lemma HeldSnoc(helds: seq<Held>, h: Held, hop: Hop, asnLen: nat)
    requires AllValid(helds, asnLen) && ValidHeld(h, asnLen)
    ensures AllValid(helds + [h], asnLen)
    ensures ActionsHeld(helds + [h], hop, asnLen) == ActionsHeld(helds, hop, asnLen) + ActionsIn(h, hop, asnLen)
    ensures HopHeld(helds + [h]) == if h.code == 3 then HopHeld([h]) else HopHeld(helds)
  {
    assert (helds + [h])[..|helds|] == helds && [h][..0] == [];
  }

  lemma JoinedValues(p: Progress, c: Option<Carry>)
    ensures Joined(p, c).actions == p.actions && Joined(p, c).nextHop == p.nextHop
    ensures Joined(p, c).flowNextHop == if c.Some? && c.value.hop != NoHop then c.value.hop else p.flowNextHop
  {
  }

  lemma CarriedHop(a: WireAttr)
    requires Carried(a).Ok?
    ensures FlowHopOf(a) == if Carried(a).value.Some? then Carried(a).value.value.hop else NoHop
  {
  }

  lemma CollectOne(p: Progress, attrs: seq<WireAttr>, helds: seq<Held>, a: WireAttr, h: Held, asnLen: nat)
    requires (asnLen == 2 || asnLen == 4) && Collected(p, attrs, helds, asnLen) && Holds(a, h, asnLen)
    requires Carried(a).Ok?
    ensures Collected(Joined(Noted(p, a, asnLen), Carried(a).value), attrs + [a], helds + [h], asnLen)
  {
    hide Holds, ContentOf, Carried, ActionsIn, ActionsOf, HopOf, HopHeld, ActionsHeld, FlowHopOf, Joined, ValidHeld;
    HoldsValid(a, h, asnLen);
    PartsHeld(a, h, asnLen);
    HeldSnoc(helds, h, NoHop, asnLen);
    JoinedValues(Noted(p, a, asnLen), Carried(a).value);
    CarriedHop(a);
    assert (attrs + [a])[..|attrs|] == attrs;
    assert p.actions + [] == p.actions;
  }

  lemma {:induction false} CollectAll(p: Progress, done: seq<WireAttr>, told: seq<Held>, attrs: seq<WireAttr>,
                                      helds: seq<Held>, asnLen: nat)
    requires (asnLen == 2 || asnLen == 4) && Collected(p, done, told, asnLen) && AllHold(attrs, helds, asnLen)
    requires AbsorbList(attrs, p, asnLen).Ok?
    ensures Collected(AbsorbList(attrs, p, asnLen).value, done + attrs, told + helds, asnLen)
    decreases |attrs|
  {
    hide Collected, Holds, Carried, Noted, Joined;
    if attrs == [] {
      assert done + attrs == done && told + helds == told;
    } else {
      var next := Joined(Noted(p, attrs[0], asnLen), Carried(attrs[0]).value);
      CollectOne(p, done, told, attrs[0], helds[0], asnLen);
      CollectAll(next, done + [attrs[0]], told + [helds[0]], attrs[1..], helds[1..], asnLen);
      MoveOne(done, attrs);
      MoveOne(told, helds);
    }
  }

  /* ---------- redirections ---------- */

  lemma RedirectedShown(a: WireAction, hop: Hop)
    requires ValidAction(a) && hop != NoHop
    ensures Redirected(ShownAction(a), hop) == ShownWith(a, hop)
  {
    hide EncodeAction, IsZero, AtMostZero, ReadBinary32, Listed;
    FlagCases(if a.ToIp? then a.flags else 0);
  }

  lemma RedirectedShown6(a: WireAction6, hop: Hop)
    requires ValidAction6(a) && hop != NoHop
    ensures Redirected(ShownAction6(a), hop) == ShownWith6(a, hop)
  {
    hide EncodeAction6, IsZero;
    FlagCases(if a.ToIp6? then a.flags else 0);
  }

  lemma FlagCases(flags: nat)
    ensures flags < 2 ==> Bit(flags, 0) == (flags == 1)
  {
    assert Bit(0, 0) == false && Bit(1, 0) == true;
  }

  lemma RedirectedIn(h: Held, hop: Hop, asnLen: nat)
    requires ValidHeld(h, asnLen) && hop != NoHop
    ensures RedirectedAll(ActionsIn(h, NoHop, asnLen), hop) == ActionsIn(h, hop, asnLen)
  {
    hide ShownAction, ShownAction6, Redirected, ValidAction, ValidAction6;
    var before, after := ActionsIn(h, NoHop, asnLen), ActionsIn(h, hop, asnLen);
    if h.value.Some? && h.value.value.WActions? {
      var acts := h.value.value.actions;
      forall i | 0 <= i < |acts| ensures Redirected(before[i], hop) == after[i] {
        RedirectedShown(acts[i], hop);
      }
    } else if h.value.Some? && h.value.value.WActions6? {
      var acts := h.value.value.actions6;
      forall i | 0 <= i < |acts| ensures Redirected(before[i], hop) == after[i] {
        RedirectedShown6(acts[i], hop);
      }
    }
  }

  lemma RedirectedAppend(a: seq<Action>, b: seq<Action>, hop: Hop)
    ensures RedirectedAll(a + b, hop) == RedirectedAll(a, hop) + RedirectedAll(b, hop)
  {
  }

  lemma {:induction false} RedirectedHeld(helds: seq<Held>, hop: Hop, asnLen: nat)
    requires AllValid(helds, asnLen) && hop != NoHop
    ensures RedirectedAll(ActionsHeld(helds, NoHop, asnLen), hop) == ActionsHeld(helds, hop, asnLen)
  {
    hide RedirectedAll, ActionsIn;
    if helds == [] {
      NothingRedirected(hop);
    } else {
      var n := |helds| - 1;
      RedirectedHeld(helds[..n], hop, asnLen);
      RedirectedIn(helds[n], hop, asnLen);
      RedirectedAppend(ActionsHeld(helds[..n], NoHop, asnLen), ActionsIn(helds[n], NoHop, asnLen), hop);
    }
  }

  lemma NothingRedirected(hop: Hop)
    ensures RedirectedAll([], hop) == []
  {
  }

  /* ---------- whole messages ---------- */

  lemma NothingCollected(asnLen: nat)
    ensures Collected(NOTHING, [], [], asnLen)
  {
  }

  lemma GatheredValues(m: Message, helds: seq<Held>, asnLen: nat)
    requires (asnLen == 2 || asnLen == 4) && AbsorbList(m.attrs, NOTHING, asnLen).Ok?
    requires AllHold(m.attrs, helds, asnLen)
    ensures Collected(AbsorbList(m.attrs, NOTHING, asnLen).value, m.attrs, helds, asnLen)
  {
    hide Holds, Collected, AbsorbList;
    NothingCollected(asnLen);
    assert [] + m.attrs == m.attrs && [] + helds == helds;
    CollectAll(NOTHING, [], [], m.attrs, helds, asnLen);
  }

  lemma ResolvedActions(p: Progress)
    ensures Resolved(p).actions == if p.flowNextHop == NoHop then p.actions else RedirectedAll(p.actions, p.flowNextHop)
  {
  }

  // The actions of an accepted message are those that its attributes of codes 16 and 25 encode, in
  // order, with the redirections to a FlowSpec next hop naming that next hop.
  lemma ActionsOfMessage(m: Message, helds: seq<Held>, asnLen: nat)
    requires (asnLen == 2 || asnLen == 4) && Interpret(m, asnLen).Ok? && AllHold(m.attrs, helds, asnLen)
    ensures AllValid(helds, asnLen)
    ensures Interpret(m, asnLen).value.actions == ActionsHeld(helds, LastFlowHop(m.attrs), asnLen)
  {
    hide Holds, Resolved, RedirectedAll, ActionsHeld, LastFlowHop, AbsorbList, HopHeld;
    var p := AbsorbList(m.attrs, NOTHING, asnLen).value;
    GatheredValues(m, helds, asnLen);
    ResolvedActions(p);
    if p.flowNextHop != NoHop {
      RedirectedHeld(helds, p.flowNextHop, asnLen);
    }
  }

  // An attribute of code 16 is shown with the same actions; every other one is shown with the value
  // it holds, or raw when it holds none.
  lemma EntryOfMessage(m: Message, helds: seq<Held>, k: nat, asnLen: nat)
    requires (asnLen == 2 || asnLen == 4) && Interpret(m, asnLen).Ok? && AllHold(m.attrs, helds, asnLen)
    requires k < |m.attrs| && !IsMultiProtocol(m.attrs[k].code)
    ensures |Interpret(m, asnLen).value.attributes| == |m.attrs| && ValidHeld(helds[k], asnLen)
    ensures var a, h := m.attrs[k], helds[k];
            var entry := Interpret(m, asnLen).value.attributes[k];
            && entry.code == a.code && entry.flags == a.flags && entry.length == |a.data|
            && (h.value.None? ==> entry.content == Raw(HexText(a.data)))
            && (h.value.Some? ==>
                  entry.content == Value(if a.code == 16 then
                                           ExtendedCommunities(ActionsIn(h, LastFlowHop(m.attrs), asnLen))
                                         else ShownValue(a.code, h.value.value, asnLen)))
  {
    hide Holds, Interpret, AbsorbList, ContentOf, ActionsIn, LastFlowHop, ValidHeld, ShownValue;
    assert Holds(m.attrs[k], helds[k], asnLen);
    HoldsValid(m.attrs[k], helds[k], asnLen);
    ContentHeld(m.attrs[k], helds[k], asnLen);
    UpdateProperties.InterpretEntries(m, asnLen);
    UpdateProperties.EntryOf(m.attrs, k, asnLen);
    var p := AbsorbList(m.attrs, NOTHING, asnLen).value;
    FlowHopGathered(m, helds, asnLen);
    if helds[k].value.None? {
      RawContent(m.attrs[k], asnLen);
    } else if m.attrs[k].code == 16 {
      PartsHeld(m.attrs[k], helds[k], asnLen);
      ValueOfSixteen(helds[k], asnLen);
      if p.flowNextHop != NoHop {
        RedirectedIn(helds[k], p.flowNextHop, asnLen);
      }
    }
  }

  lemma FlowHopGathered(m: Message, helds: seq<Held>, asnLen: nat)
    requires (asnLen == 2 || asnLen == 4) && AbsorbList(m.attrs, NOTHING, asnLen).Ok?
    requires AllHold(m.attrs, helds, asnLen)
    ensures AbsorbList(m.attrs, NOTHING, asnLen).value.flowNextHop == LastFlowHop(m.attrs)
  {
    GatheredValues(m, helds, asnLen);
  }

  lemma RawContent(a: WireAttr, asnLen: nat)
    requires (asnLen == 2 || asnLen == 4) && ContentOf(a, asnLen).Raw?
    ensures ContentOf(a, asnLen) == Raw(HexText(a.data))
  {
  }

  lemma ValueOfSixteen(h: Held, asnLen: nat)
    requires ValidHeld(h, asnLen) && h.code == 16 && h.value.Some?
    ensures h.value.value.WActions?
    ensures ShownValue(16, h.value.value, asnLen).ExtendedCommunities?
  {
  }

  // What an entry adds to the communities and paths is what its attribute holds.
  predicate EntryAgrees(entry: Attr, h: Held) {
    && entry.code == h.code && CommunitiesIn(entry) == CommunitiesHeld([h])
    && (h.code == 2 || h.code == 17 ==>
          if h.value.Some? && h.value.value.WPath? then entry.content == Value(AsPath(h.value.value.path))
          else entry.content.Raw?)
  }

  lemma AgreesAtOnce(a: WireAttr, h: Held, entry: Attr, asnLen: nat)
    requires (asnLen == 2 || asnLen == 4) && Holds(a, h, asnLen) && entry.code == a.code
    requires a.code != 16 ==> entry == AttrOf(a, asnLen)
    ensures EntryAgrees(entry, h)
  {
    hide Decoded, EncodeWireValue, Holds;
    HoldsValid(a, h, asnLen);
    ContentHeld(a, h, asnLen);
    PartsHeld(a, h, asnLen);
    assert [h][..0] == [];
  }

  lemma EntriesAgree(m: Message, helds: seq<Held>, asnLen: nat)
    requires (asnLen == 2 || asnLen == 4) && Interpret(m, asnLen).Ok? && AllHold(m.attrs, helds, asnLen)
    ensures var entries := Interpret(m, asnLen).value.attributes;
            |entries| == |helds| && forall k | 0 <= k < |entries| :: EntryAgrees(entries[k], helds[k])
  {
    hide Holds, Interpret, EntryAgrees, AttrOf;
    UpdateProperties.InterpretEntries(m, asnLen);
    EntryCount(m, asnLen);
    var entries := Interpret(m, asnLen).value.attributes;
    forall k | 0 <= k < |entries| ensures EntryAgrees(entries[k], helds[k]) {
      UpdateProperties.EntryKept(m, k, asnLen);
      AgreesAtOnce(m.attrs[k], helds[k], entries[k], asnLen);
    }
  }

  lemma EntryCount(m: Message, asnLen: nat)
    requires (asnLen == 2 || asnLen == 4) && Interpret(m, asnLen).Ok?
    ensures |Interpret(m, asnLen).value.attributes| == |m.attrs|
  {
    hide Interpret, AbsorbList;
    UpdateProperties.InterpretEntries(m, asnLen);
    assert [] + m.attrs == m.attrs;
    GatherAll(NOTHING, [], m.attrs, asnLen);
  }

  lemma {:induction false} AgreementHeld(entries: seq<Attr>, helds: seq<Held>, code: byte)
    requires |entries| == |helds| && (code == 2 || code == 17)
    requires forall k | 0 <= k < |entries| :: EntryAgrees(entries[k], helds[k])
    ensures AllCommunities(entries) == CommunitiesHeld(helds) && LastPath(entries, code) == PathHeld(helds, code)
  {
    hide CommunitiesIn;
    if entries != [] {
      var n := |entries| - 1;
      AgreementHeld(entries[..n], helds[..n], code);
      assert EntryAgrees(entries[n], helds[n]);
      CommunitiesSnoc(helds[..n], helds[n]);
      assert helds == helds[..n] + [helds[n]];
    }
  }

  lemma CommunitiesSnoc(helds: seq<Held>, h: Held)
    ensures CommunitiesHeld(helds + [h]) == CommunitiesHeld(helds) + CommunitiesHeld([h])
  {
    assert (helds + [h])[..|helds|] == helds && [h][..0] == [];
  }

  lemma NextHopGathered(attrs: seq<WireAttr>, asnLen: nat)
    requires (asnLen == 2 || asnLen == 4) && AbsorbList(attrs, NOTHING, asnLen).Ok?
    ensures AbsorbList(attrs, NOTHING, asnLen).value.nextHop == LastNextHop(attrs, asnLen)
  {
    assert [] + attrs == attrs;
    GatherAll(NOTHING, [], attrs, asnLen);
  }

  lemma HopOfMessage(m: Message, helds: seq<Held>, asnLen: nat)
    requires (asnLen == 2 || asnLen == 4) && Interpret(m, asnLen).Ok? && AllHold(m.attrs, helds, asnLen)
    ensures LastNextHop(m.attrs, asnLen) == HopHeld(helds)
  {
    hide Holds, AbsorbList, LastNextHop, HopHeld, Finished;
    GatheredValues(m, helds, asnLen);
    NextHopGathered(m.attrs, asnLen);
  }

  // What every accepted body says besides its routes: it is an encoded message whose attributes
  // hold certain values, and its actions, its communities, its paths and the next hop of its NLRI
  // field are those that these values say.
  lemma MessageSays(data: Bytes, asnLen: nat) returns (m: Message, helds: seq<Held>)
    requires ParseUpdate(data, asnLen).Ok?
    ensures ValidMessage(m) && EncodeUpdate(m) == data && AllHold(m.attrs, helds, asnLen) && AllValid(helds, asnLen)
    ensures asnLen == 2 || asnLen == 4
    ensures var u := ParseUpdate(data, asnLen).value;
            && u.actions == ActionsHeld(helds, LastFlowHop(m.attrs), asnLen)
            && AllCommunities(u.attributes) == CommunitiesHeld(helds)
            && LastPath(u.attributes, 2) == PathHeld(helds, 2) && LastPath(u.attributes, 17) == PathHeld(helds, 17)
            && LastNextHop(m.attrs, asnLen) == HopHeld(helds)
  {
    hide Holds, Interpret, ParseUpdate, EncodeUpdate, EntryAgrees, LastNextHop, HopHeld, LastFlowHop;
    m := UpdateSound(data, asnLen);
    helds := ValuesHeld(m.attrs, asnLen);
    ActionsOfMessage(m, helds, asnLen);
    EntriesAgree(m, helds, asnLen);
    AgreementHeld(ParseUpdate(data, asnLen).value.attributes, helds, 2);
    AgreementHeld(ParseUpdate(data, asnLen).value.attributes, helds, 17);
    HopOfMessage(m, helds, asnLen);
  }
}
