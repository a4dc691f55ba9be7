/** What an accepted UPDATE keeps, what it loses, and what a damaged attribute can touch. */
module UpdateProperties {
  import opened Base
  import opened Octets
  import opened Prefixes
  import opened FlowSpec
  import opened FlowSpecGrammar
  import opened Attributes
  import opened UpdateCodec
  import opened UpdateGrammar
  import OpenCodec

  /* ---------- the last source of a label ---------- */

  lemma {:induction false} LastSourceWins(sources: seq<Source>, i: nat)
    requires Readable(sources) && i < |sources|
    requires forall j | i < j < |sources| :: sources[j].group != sources[i].group
    ensures sources[i].group in FiledSources(sources)
    ensures FiledSources(sources)[sources[i].group] == sources[i].routes.value
  {
    if i < |sources| - 1 {
      LastSourceWins(sources[..|sources| - 1], i);
    }
  }

  lemma {:induction false} FiledFromSource(sources: seq<Source>, group: Label) returns (i: nat)
    requires Readable(sources) && group in FiledSources(sources)
    ensures i < |sources| && sources[i].group == group
    ensures forall j | i < j < |sources| :: sources[j].group != group
  {
    var n := |sources| - 1;
    if sources[n].group == group {
      i := n;
    } else {
      i := FiledFromSource(sources[..n], group);
    }
  }

  /* ---------- conservation of routes ---------- */

  datatype Item = UnicastItem(group: Label, route: UnicastRoute) | FlowItem(group: Label, rule: Rule)

  function ItemsOf(group: Label, nlri: Nlri): multiset<Item> {
    match nlri
    case UnicastNlri(routes) => multiset(seq(|routes|, i requires 0 <= i < |routes| => UnicastItem(group, routes[i])))
    case FlowNlri(rules) => multiset(seq(|rules|, i requires 0 <= i < |rules| => FlowItem(group, rules[i])))
  }

  function SourceItems(s: Source): multiset<Item> {
    if s.routes.Ok? then ItemsOf(s.group, s.routes.value) else multiset{}
  }

  // Every route in every source.
  function AllItems(sources: seq<Source>): multiset<Item> {
    if sources == [] then multiset{} else SourceItems(sources[0]) + AllItems(sources[1..])
  }

  predicate Overwritten(sources: seq<Source>, i: nat) {
    i < |sources| && exists j :: i < j < |sources| && sources[j].group == sources[i].group
  }

  // The routes in sources that a later source with the same label replaces.
  function LostItems(sources: seq<Source>): multiset<Item> {
    if sources == [] then multiset{}
    else (if Overwritten(sources, 0) then SourceItems(sources[0]) else multiset{}) + LostItems(sources[1..])
  }

  function GroupItems(groups: map<Label, Nlri>, group: Label): multiset<Item> {
    if group in groups then ItemsOf(group, groups[group]) else multiset{}
  }

  // Every route in the decoded groups.
  function FiledItems(groups: map<Label, Nlri>): multiset<Item> {
    GroupItems(groups, Ipv4FlowSpec) + GroupItems(groups, Ipv4Unicast)
    + GroupItems(groups, Ipv6FlowSpec) + GroupItems(groups, Ipv6Unicast)
  }

  lemma FiledItemsAdd(groups: map<Label, Nlri>, group: Label, nlri: Nlri)
    requires group !in groups
    ensures FiledItems(groups[group := nlri]) == FiledItems(groups) + ItemsOf(group, nlri)
  {
    match group
    case Ipv4FlowSpec =>
    case Ipv4Unicast =>
    case Ipv6FlowSpec =>
    case Ipv6Unicast =>
  }

  // A source in front of others counts only if none of them has its label.
  lemma {:induction false} FiledFront(s: Source, others: seq<Source>)
    requires s.routes.Ok? && Readable(others)
    ensures Readable([s] + others)
    ensures FiledSources([s] + others)
         == if s.group in FiledSources(others) then FiledSources(others)
            else FiledSources(others)[s.group := s.routes.value]
    decreases |others|
  {
    if others == [] {
      assert [s] + others == [s];
      assert FiledSources([s][..0]) == map[];
    } else {
      var n := |others| - 1;
      FiledFront(s, others[..n]);
      assert ([s] + others)[..n + 1] == [s] + others[..n];
    }
  }

  lemma OverwrittenWhen(s: Source, others: seq<Source>)
    requires Readable(others)
    ensures Overwritten([s] + others, 0) <==> s.group in FiledSources(others)
  {
    if s.group in FiledSources(others) {
      var i := FiledFromSource(others, s.group);
      assert ([s] + others)[i + 1].group == s.group;
    }
    if Overwritten([s] + others, 0) {
      var j :| 0 < j < 1 + |others| && ([s] + others)[j].group == s.group;
      assert others[j - 1].group == s.group;
      GroupFiled(others, j - 1);
    }
  }

  lemma {:induction false} GroupFiled(sources: seq<Source>, i: nat)
    requires Readable(sources) && i < |sources|
    ensures sources[i].group in FiledSources(sources)
  {
    if i < |sources| - 1 {
      GroupFiled(sources[..|sources| - 1], i);
    }
  }

  // Every route of every source is in the decoded groups, or is one of those replaced.
  lemma {:induction false} Conservation(sources: seq<Source>)
    requires Readable(sources)
    ensures AllItems(sources) == FiledItems(FiledSources(sources)) + LostItems(sources)
  {
    if sources != [] {
      var s, others := sources[0], sources[1..];
      assert sources == [s] + others;
      Conservation(others);
      FiledFront(s, others);
      OverwrittenWhen(s, others);
      if s.group !in FiledSources(others) {
        FiledItemsAdd(FiledSources(others), s.group, s.routes.value);
      }
    }
  }

  // Only sources without routes are replaced.
  predicate Harmless(sources: seq<Source>) {
    forall i | 0 <= i < |sources| && Overwritten(sources, i) :: SourceItems(sources[i]) == multiset{}
  }

  lemma HarmlessCons(s: Source, others: seq<Source>)
    ensures Harmless([s] + others)
       <==> (Overwritten([s] + others, 0) ==> SourceItems(s) == multiset{}) && Harmless(others)
  {
    var all := [s] + others;
    assert all[0] == s;
    forall i | 0 <= i < |others| ensures Overwritten(all, i + 1) <==> Overwritten(others, i) {
      OverwrittenTail(s, others, i);
    }
    assert forall i | 0 <= i < |others| :: all[i + 1] == others[i];
    if Harmless(others) && (Overwritten(all, 0) ==> SourceItems(s) == multiset{}) {
      forall i | 0 <= i < |all| && Overwritten(all, i) ensures SourceItems(all[i]) == multiset{} {
        if i > 0 {
          assert Overwritten(others, i - 1);
        }
      }
    }
    if Harmless(all) {
      forall i | 0 <= i < |others| && Overwritten(others, i) ensures SourceItems(others[i]) == multiset{} {
        assert Overwritten(all, i + 1);
      }
    }
  }

  lemma OverwrittenTail(s: Source, others: seq<Source>, i: nat)
    requires i < |others|
    ensures Overwritten([s] + others, i + 1) <==> Overwritten(others, i)
  {
    var all := [s] + others;
    if Overwritten(all, i + 1) {
      var j :| i + 1 < j < |all| && all[j].group == all[i + 1].group;
      assert others[j - 1].group == others[i].group;
    }
    if Overwritten(others, i) {
      var j :| i < j < |others| && others[j].group == others[i].group;
      assert all[j + 1].group == all[i + 1].group;
    }
  }

  lemma {:induction false} NothingLost(sources: seq<Source>)
    ensures LostItems(sources) == multiset{} <==> Harmless(sources)
  {
    hide Overwritten, SourceItems;
    if sources != [] {
      NothingLost(sources[1..]);
      HarmlessCons(sources[0], sources[1..]);
      assert sources == [sources[0]] + sources[1..];
      EmptySum(if Overwritten(sources, 0) then SourceItems(sources[0]) else multiset{}, LostItems(sources[1..]));
    }
  }

  lemma EmptySum<T>(a: multiset<T>, b: multiset<T>)
    ensures a + b == multiset{} <==> a == multiset{} && b == multiset{}
  {
    assert |a + b| == |a| + |b|;
  }

  // An accepted message invents no route, and loses exactly those of earlier sources under a label
  // that a later one takes: it keeps every route if and only if only empty sources are replaced.
  lemma UpdateConservesRoutes(m: Message, asnLen: nat)
    requires asnLen == 2 || asnLen == 4
    requires Interpret(m, asnLen).Ok?
    ensures var u := Interpret(m, asnLen).value;
            var up, down := Announced(m, asnLen), Withdrawn(m);
            && AllItems(up) == FiledItems(u.announce) + LostItems(up)
            && AllItems(down) == FiledItems(u.withdraw) + LostItems(down)
            && (AllItems(up) == FiledItems(u.announce) <==> Harmless(up))
            && (AllItems(down) == FiledItems(u.withdraw) <==> Harmless(down))
  {
    hide AllItems, FiledItems, LostItems, Harmless, Announced, Withdrawn, Interpret, FiledSources;
    MessageMeaning(m, asnLen);
    var u := Interpret(m, asnLen).value;
    var up, down := Announced(m, asnLen), Withdrawn(m);
    Conservation(up);
    Conservation(down);
    NothingLost(up);
    NothingLost(down);
    Unchanged(AllItems(up), FiledItems(u.announce), LostItems(up));
    Unchanged(AllItems(down), FiledItems(u.withdraw), LostItems(down));
  }

  lemma Unchanged<T>(all: multiset<T>, kept: multiset<T>, lost: multiset<T>)
    requires all == kept + lost
    ensures all == kept <==> lost == multiset{}
  {
    assert |all| == |kept| + |lost|;
  }

  /* ---------- attributes that carry routes, end to end ---------- */

  datatype WireNlri = WirePrefixes(prefixes: seq<WirePrefix>) | WireRules(rules: seq<WireRule>)

  // The body of an MP_REACH_NLRI (with a next hop and a reserved octet) or an MP_UNREACH_NLRI.
  datatype Section = Reach(afi: nat, hop: Bytes, reserved: byte, nlri: WireNlri) | Unreach(afi: nat, nlri: WireNlri)

  predicate ValidSection(s: Section) {
    && (s.afi == AFI_IPV4 || s.afi == AFI_IPV6)
    && (s.Reach? ==> |s.hop| < 256)
    && match s.nlri
       case WirePrefixes(ps) => ValidWires(ps, s.afi)
       case WireRules(rs) => ValidRules(rs, s.afi)
  }

  function EncodeNlri(s: Section): Bytes
    requires ValidSection(s)
  {
    match s.nlri
    case WirePrefixes(ps) => EncodeWire(ps, s.afi)
    case WireRules(rs) => EncodeRules(rs, s.afi)
  }

  function SectionCode(s: Section): byte {
    if s.Reach? then 14 else 15
  }

  function SectionSafi(s: Section): byte {
    if s.nlri.WireRules? then SAFI_FLOWSPEC else SAFI_UNICAST
  }

  function EncodeSection(s: Section): Bytes
    requires ValidSection(s)
  {
    ToBe(s.afi, 2) + ([SectionSafi(s)] +
      (if s.Reach? then [|s.hop|] + (s.hop + ([s.reserved] + EncodeNlri(s))) else EncodeNlri(s)))
  }

  function SectionHop(s: Section): Hop {
    if s.Reach? then NextHop(s.hop) else NoHop
  }

  function SectionLabel(s: Section): Label {
    match s.nlri
    case WirePrefixes(_) => if s.afi == AFI_IPV4 then Ipv4Unicast else Ipv6Unicast
    case WireRules(_) => if s.afi == AFI_IPV4 then Ipv4FlowSpec else Ipv6FlowSpec
  }

  function SectionRoutes(s: Section): Nlri
    requires ValidSection(s)
  {
    match s.nlri
    case WirePrefixes(ps) => UnicastNlri(RoutesOf(ps, s.afi, if s.Reach? then Some(NextHop(s.hop)) else None))
    case WireRules(rs) => FlowNlri(ShownRules(rs, s.afi))
  }

  lemma SectionHead(s: Section)
    requires ValidSection(s)
    ensures ReadMpHead(SectionCode(s), EncodeSection(s))
         == Ok(MpHead(s.afi, SectionSafi(s), SectionHop(s), EncodeNlri(s)))
  {
    hide EncodeNlri, NextHop, ToBe;
    var nlri := EncodeNlri(s);
    var rest := if s.Reach? then [|s.hop|] + (s.hop + ([s.reserved] + nlri)) else nlri;
    TakeSplit(ToBe(s.afi, 2), [SectionSafi(s)] + rest);
    OpenCodec.TwoOctets(s.afi);
    TakeOne(SectionSafi(s), rest);
    if s.Reach? {
      TakeOne(|s.hop|, s.hop + ([s.reserved] + nlri));
      TakeSplit(s.hop, [s.reserved] + nlri);
      TakeOne(s.reserved, nlri);
    }
  }

  lemma SectionNlri(s: Section, head: MpHead)
    requires ValidSection(s)
    requires head == MpHead(s.afi, SectionSafi(s), SectionHop(s), EncodeNlri(s))
    ensures DecodeNlri(SectionCode(s), head) == Ok(SectionRoutes(s))
  {
    match s.nlri
    case WirePrefixes(ps) => UnicastComplete(ps, s.afi, if s.Reach? then Some(NextHop(s.hop)) else None);
    case WireRules(rs) => RulesComplete(rs, s.afi);
  }

  // An attribute that encodes unicast prefixes or FlowSpec rules is a source of exactly them.
  lemma SectionSource(s: Section, flags: byte)
    requires ValidSection(s)
    ensures SourceOf(WireAttr(flags, SectionCode(s), EncodeSection(s)), SectionCode(s))
         == [Source(SectionLabel(s), Ok(SectionRoutes(s)))]
  {
    var head := MpHead(s.afi, SectionSafi(s), SectionHop(s), EncodeNlri(s));
    SectionHead(s);
    SectionNlri(s, head);
    assert LabelOf(head) == SectionLabel(s) && KnownFamily(head);
    SourceFromHead(WireAttr(flags, SectionCode(s), EncodeSection(s)), head);
  }

  lemma HeadOctets(code: byte, data: Bytes) returns (hop: Bytes, reserved: byte)
    requires IsMultiProtocol(code) && ReadMpHead(code, data).Ok?
    ensures var head := ReadMpHead(code, data).value;
            && |hop| < 256 && head.nextHop == (if code == 14 then NextHop(hop) else NoHop)
            && data == ToBe(head.afi, 2)
                       + ([head.safi] + (if code == 14 then [|hop|] + (hop + ([reserved] + head.nlri)) else head.nlri))
  {
    hide ToBe, NextHop;
    var (family, afterFamily) := Take(data, 2).value;
    var (sub, rest) := Take(afterFamily, 1).value;
    SizeOctets(family);
    assert sub == [sub[0]];
    if code == 14 {
      var (size, afterSize) := Take(rest, 1).value;
      var (octets, afterHop) := Take(afterSize, size[0]).value;
      var (last, nlri) := Take(afterHop, 1).value;
      hop, reserved := octets, last[0];
      assert size == [|hop|] && last == [reserved];
    } else {
      hop, reserved := [], 0;
    }
  }

  // The routes of a family and kind, read back to their records.
  lemma NlriRecords(code: byte, head: MpHead) returns (nlri: WireNlri)
    requires (head.afi == AFI_IPV4 || head.afi == AFI_IPV6) && DecodeNlri(code, head).Ok?
    ensures head.safi == 133 <==> nlri.WireRules?
    ensures nlri.WirePrefixes? ==>
              && ValidWires(nlri.prefixes, head.afi) && EncodeWire(nlri.prefixes, head.afi) == head.nlri
              && DecodeNlri(code, head).value
                 == UnicastNlri(RoutesOf(nlri.prefixes, head.afi, if code == 14 then Some(head.nextHop) else None))
    ensures nlri.WireRules? ==>
              && ValidRules(nlri.rules, head.afi) && EncodeRules(nlri.rules, head.afi) == head.nlri
              && DecodeNlri(code, head).value == FlowNlri(ShownRules(nlri.rules, head.afi))
  {
    if head.safi == SAFI_FLOWSPEC {
      var rules := RulesSound(head.nlri, head.afi);
      nlri := WireRules(rules);
    } else {
      var prefixes := UnicastSound(head.nlri, head.afi, if code == 14 then Some(head.nextHop) else None);
      nlri := WirePrefixes(prefixes);
    }
  }

  // Nothing else is a source: one that can be read is such a section, in its encoding, of IPv4 or
  // IPv6 and with unicast prefixes or FlowSpec rules.
  lemma SectionSound(a: WireAttr, code: byte) returns (s: Section)
    requires SourceOf(a, code) != [] && SourceOf(a, code)[0].routes.Ok?
    ensures ValidSection(s) && a.code == code == SectionCode(s) && a.data == EncodeSection(s)
    ensures SourceOf(a, code) == [Source(SectionLabel(s), Ok(SectionRoutes(s)))]
  {
    hide EncodeWire, EncodeRules, RoutesOf, ShownRules, ToBe, NextHop, ReadMpHead, DecodeNlri;
    var head := ReadMpHead(code, a.data).value;
    var hop, reserved := HeadOctets(code, a.data);
    var nlri := NlriRecords(code, head);
    s := if code == 14 then Reach(head.afi, hop, reserved, nlri) else Unreach(head.afi, nlri);
  }

  lemma SourceFromHead(a: WireAttr, head: MpHead)
    requires IsMultiProtocol(a.code) && ReadMpHead(a.code, a.data) == Ok(head) && KnownFamily(head)
    ensures SourceOf(a, a.code) == [Source(LabelOf(head), DecodeNlri(a.code, head))]
  {
  }

  /* ---------- a message that loses routes ---------- */

  // An MP_REACH_NLRI with IPv4 unicast prefixes beside an NLRI field with others.
  function TwoSources(ps: seq<WirePrefix>, hop: Bytes, qs: seq<WirePrefix>): Message
    requires ValidWires(ps, AFI_IPV4) && ValidWires(qs, AFI_IPV4) && |hop| < 256
  {
    Message([], [WireAttr(0x80, 14, EncodeSection(Reach(AFI_IPV4, hop, 0, WirePrefixes(ps))))],
            EncodeWire(qs, AFI_IPV4))
  }

  function PrefixItems(ps: seq<WirePrefix>, nextHop: Hop): multiset<Item>
    requires ValidWires(ps, AFI_IPV4)
  {
    ItemsOf(Ipv4Unicast, UnicastNlri(RoutesOf(ps, AFI_IPV4, Some(nextHop))))
  }

  lemma TwoSourcesAre(ps: seq<WirePrefix>, hop: Bytes, qs: seq<WirePrefix>, asnLen: nat)
    requires ValidWires(ps, AFI_IPV4) && ValidWires(qs, AFI_IPV4) && |hop| < 256 && qs != []
    requires asnLen == 2 || asnLen == 4
    ensures AllReadable(TwoSources(ps, hop, qs).attrs) && Withdrawn(TwoSources(ps, hop, qs)) == []
    ensures Announced(TwoSources(ps, hop, qs), asnLen)
         == [Source(Ipv4Unicast, Ok(UnicastNlri(RoutesOf(ps, AFI_IPV4, Some(NextHop(hop)))))),
             Source(Ipv4Unicast, Ok(UnicastNlri(RoutesOf(qs, AFI_IPV4, Some(NoHop)))))]
  {
    hide EncodeSection, RoutesOf, UnicastRoutes, ReadMpHead, DecodeNlri, ContentOf, NextHop;
    var m := TwoSources(ps, hop, qs);
    var s := Reach(AFI_IPV4, hop, 0, WirePrefixes(ps));
    var a := m.attrs[0];
    SectionSource(s, 0x80);
    SectionHead(s);
    assert m.attrs[..0] == [];
    OneAttribute(a, 14);
    OneAttribute(a, 15);
    UnicastComplete(qs, AFI_IPV4, Some(NoHop));
    assert LastNextHop(m.attrs, asnLen) == NoHop;
    assert EncodeWire(qs, AFI_IPV4) != [];
  }

  lemma OneAttribute(a: WireAttr, code: byte)
    ensures MpSources([a], code) == SourceOf(a, code)
  {
    assert [a][..0] == [] && [] + SourceOf(a, code) == SourceOf(a, code);
  }

  // Every such message is accepted, keeps the field's prefixes only, and loses all the others.
  lemma PlainReplacesMp(ps: seq<WirePrefix>, hop: Bytes, qs: seq<WirePrefix>, asnLen: nat)
    requires ValidWires(ps, AFI_IPV4) && ValidWires(qs, AFI_IPV4) && |hop| < 256 && qs != []
    requires asnLen == 2 || asnLen == 4
    ensures var m := TwoSources(ps, hop, qs);
            && Interpret(m, asnLen).Ok?
            && FiledItems(Interpret(m, asnLen).value.announce) == PrefixItems(qs, NoHop)
            && LostItems(Announced(m, asnLen)) == PrefixItems(ps, NextHop(hop))
            && (Harmless(Announced(m, asnLen)) <==> ps == [])
  {
    hide RoutesOf, NextHop, Interpret, TwoSources, ItemsOf;
    var m := TwoSources(ps, hop, qs);
    TwoSourcesAre(ps, hop, qs, asnLen);
    MessageMeaning(m, asnLen);
    var first := Source(Ipv4Unicast, Ok(UnicastNlri(RoutesOf(ps, AFI_IPV4, Some(NextHop(hop))))));
    var second := Source(Ipv4Unicast, Ok(UnicastNlri(RoutesOf(qs, AFI_IPV4, Some(NoHop)))));
    TwoFiled(first, second);
    NothingLost([first, second]);
    ItemCount(Ipv4Unicast, first.routes.value);
  }

  lemma ItemCount(group: Label, nlri: Nlri)
    requires nlri.UnicastNlri?
    ensures |ItemsOf(group, nlri)| == |nlri.routes|
  {
  }

  lemma TwoFiled(a: Source, b: Source)
    requires a.group == b.group && a.routes.Ok? && b.routes.Ok?
    ensures Readable([a, b]) && FiledSources([a, b]) == map[b.group := b.routes.value]
    ensures FiledItems(FiledSources([a, b])) == SourceItems(b) && LostItems([a, b]) == SourceItems(a)
  {
    hide ItemsOf;
    assert [a, b][..1] == [a] && [a][..0] == [];
    assert FiledSources([a]) == map[a.group := a.routes.value];
    assert [a, b][1..] == [b] && [b][1..] == [];
    assert [a, b][1].group == a.group;
    assert Overwritten([a, b], 0) && !Overwritten([b], 0);
    assert LostItems([b]) == multiset{} + LostItems([b][1..]) == multiset{};
    assert LostItems([a, b]) == SourceItems(a) + LostItems([a, b][1..]) == SourceItems(a);
    FiledItemsAdd(map[], b.group, b.routes.value);
  }

  // 192.0.2.0/24 in MP_REACH_NLRI and 198.51.100.0/24 in the NLRI field: the first is lost.
  lemma LossyMessage(asnLen: nat) returns (m: Message, lost: Item)
    requires asnLen == 2 || asnLen == 4
    ensures ValidMessage(m) && ParseUpdate(EncodeUpdate(m), asnLen).Ok? && !Harmless(Announced(m, asnLen))
    ensures lost in AllItems(Announced(m, asnLen))
    ensures lost !in FiledItems(ParseUpdate(EncodeUpdate(m), asnLen).value.announce)
  {
    var p, q := WirePrefix(24, [192, 0, 2]), WirePrefix(24, [198, 51, 100]);
    var hop: Bytes := [192, 0, 2, 1];
    m := TwoSources([p], hop, [q]);
    lost := UnicastItem(Ipv4Unicast, UnicastRoute(Canonical(p, AFI_IPV4), Some(NextHop(hop))));
    LossySize(p, q, hop);
    LossyItems(p, q, hop, asnLen, lost);
  }

  lemma LossySize(p: WirePrefix, q: WirePrefix, hop: Bytes)
    requires ValidWire(p, AFI_IPV4) && ValidWire(q, AFI_IPV4) && |p.raw| == 3 && |hop| == 4
    ensures ValidMessage(TwoSources([p], hop, [q]))
  {
    var a := TwoSources([p], hop, [q]).attrs;
    assert EncodeWire([p], AFI_IPV4) == [p.len] + p.raw + [] by {
      assert [p][1..] == [];
    }
    assert |a[0].data| == 13;
    assert ValidAttrs(a);
    assert a[1..] == [];
    assert |EncodeAttrs(a)| == 2 + |AttrSize(a[0])| + 13;
  }

  lemma LossyItems(p: WirePrefix, q: WirePrefix, hop: Bytes, asnLen: nat, lost: Item)
    requires asnLen == 2 || asnLen == 4
    requires ValidWire(p, AFI_IPV4) && ValidWire(q, AFI_IPV4) && |hop| == 4
    requires ValidMessage(TwoSources([p], hop, [q]))
    requires lost == UnicastItem(Ipv4Unicast, UnicastRoute(Canonical(p, AFI_IPV4), Some(NextHop(hop))))
    ensures var m := TwoSources([p], hop, [q]);
            && ParseUpdate(EncodeUpdate(m), asnLen).Ok? && !Harmless(Announced(m, asnLen))
            && lost in AllItems(Announced(m, asnLen))
            && lost !in FiledItems(ParseUpdate(EncodeUpdate(m), asnLen).value.announce)
  {
    hide TwoSources, Interpret, ParseUpdate, EncodeUpdate, Canonical;
    hide Harmless, AllItems, FiledItems, LostItems, Announced;
    var m := TwoSources([p], hop, [q]);
    PlainReplacesMp([p], hop, [q], asnLen);
    UpdateComplete(m, asnLen);
    UpdateConservesRoutes(m, asnLen);
    SingleItem(p, NextHop(hop));
    SingleItem(q, NoHop);
  }

  lemma SingleItem(p: WirePrefix, hop: Hop)
    requires ValidWire(p, AFI_IPV4)
    ensures PrefixItems([p], hop) == multiset{UnicastItem(Ipv4Unicast, UnicastRoute(Canonical(p, AFI_IPV4), Some(hop)))}
  {
    hide Canonical;
    var r := UnicastRoute(Canonical(p, AFI_IPV4), Some(hop));
    assert RoutesOf([p], AFI_IPV4, Some(hop)) == [r];
    assert seq(1, i requires 0 <= i < 1 => UnicastItem(Ipv4Unicast, [r][i])) == [UnicastItem(Ipv4Unicast, r)];
  }

  /* ---------- damaged attributes ---------- */

  // The attributes whose value can affect anything but their own entry.
  predicate IsSensitive(code: byte) {
    code == 3 || code == 14 || code == 15 || code == 16 || code == 25
  }

  predicate SameButContent(a: Attr, b: Attr) {
    a.code == b.code && a.flags == b.flags && a.length == b.length
  }

  predicate SameButEntry(xs: seq<Attr>, ys: seq<Attr>, k: nat) {
    && |xs| == |ys| && k < |xs| && SameButContent(xs[k], ys[k])
    && forall j | 0 <= j < |xs| && j != k :: xs[j] == ys[j]
  }

  predicate Alike(p: Progress, q: Progress, k: nat) {
    && SameButEntry(p.attributes, q.attributes, k) && !IsSensitive(p.attributes[k].code)
    && q == p.(attributes := q.attributes)
  }

  lemma EntryAppended(xs: seq<Attr>, ys: seq<Attr>, k: nat, x: Attr)
    requires SameButEntry(xs, ys, k)
    ensures SameButEntry(xs + [x], ys + [x], k)
  {
  }

  lemma AlikeNoted(p: Progress, q: Progress, k: nat, a: WireAttr, asnLen: nat)
    requires asnLen == 2 || asnLen == 4
    requires Alike(p, q, k)
    ensures Alike(Noted(p, a, asnLen), Noted(q, a, asnLen), k)
  {
    EntryAppended(p.attributes, q.attributes, k, AttrOf(a, asnLen));
  }

  lemma AlikeStep(p: Progress, q: Progress, k: nat, a: WireAttr, asnLen: nat)
    requires asnLen == 2 || asnLen == 4
    requires Alike(p, q, k) && Carried(a).Ok?
    ensures Alike(Absorbed(p, a, asnLen).value, Absorbed(q, a, asnLen).value, k)
  {
    AlikeNoted(p, q, k, a, asnLen);
    AlikeJoined(Noted(p, a, asnLen), Noted(q, a, asnLen), k, Carried(a).value);
  }

  lemma AlikeJoined(p: Progress, q: Progress, k: nat, c: Option<Carry>)
    requires Alike(p, q, k)
    ensures Alike(Joined(p, c), Joined(q, c), k)
  {
  }

  lemma {:induction false} AlikeList(p: Progress, q: Progress, k: nat, attrs: seq<WireAttr>, asnLen: nat)
    requires asnLen == 2 || asnLen == 4
    requires Alike(p, q, k)
    ensures AbsorbList(attrs, p, asnLen).Ok? <==> AbsorbList(attrs, q, asnLen).Ok?
    ensures AbsorbList(attrs, p, asnLen).Ok? ==>
              Alike(AbsorbList(attrs, p, asnLen).value, AbsorbList(attrs, q, asnLen).value, k)
    decreases |attrs|
  {
    if attrs != [] && Carried(attrs[0]).Ok? {
      AlikeStep(p, q, k, attrs[0], asnLen);
      AlikeList(Absorbed(p, attrs[0], asnLen).value, Absorbed(q, attrs[0], asnLen).value, k, attrs[1..], asnLen);
    }
  }

  lemma AlikeStart(p: Progress, a: WireAttr, b: WireAttr, asnLen: nat)
    requires asnLen == 2 || asnLen == 4
    requires !IsSensitive(a.code) && a.code == b.code && a.flags == b.flags && |a.data| == |b.data|
    ensures Carried(a) == Carried(b) == Ok(None)
    ensures Alike(Absorbed(p, a, asnLen).value, Absorbed(p, b, asnLen).value, |p.attributes|)
  {
  }

  lemma AlikeResolved(p: Progress, q: Progress, k: nat)
    requires Alike(p, q, k)
    ensures Alike(Resolved(p), Resolved(q), k)
  {
  }

  // The attributes of a message with the value of the k-th replaced.
  function Damaged(attrs: seq<WireAttr>, k: nat, data: Bytes): seq<WireAttr>
    requires k < |attrs|
  {
    attrs[k := attrs[k].(data := data)]
  }

  lemma {:induction false} DamagedList(p: Progress, attrs: seq<WireAttr>, k: nat, data: Bytes, asnLen: nat)
    requires asnLen == 2 || asnLen == 4
    requires k < |attrs| && |data| == |attrs[k].data| && !IsSensitive(attrs[k].code)
    ensures var r, s := AbsorbList(attrs, p, asnLen), AbsorbList(Damaged(attrs, k, data), p, asnLen);
            (r.Ok? <==> s.Ok?) && (r.Ok? ==> Alike(r.value, s.value, |p.attributes| + k))
    decreases |attrs|
  {
    hide Carried, Noted, Joined;
    var a, others := attrs[0], attrs[1..];
    if k == 0 {
      var b := a.(data := data);
      AlikeStart(p, a, b, asnLen);
      AlikeList(Absorbed(p, a, asnLen).value, Absorbed(p, b, asnLen).value, |p.attributes|, others, asnLen);
      assert Damaged(attrs, k, data)[1..] == others;
    } else {
      assert Damaged(attrs, k, data)[1..] == Damaged(others, k - 1, data);
      if Carried(a).Ok? {
        OneEntry(p, a, asnLen);
        DamagedList(Absorbed(p, a, asnLen).value, others, k - 1, data, asnLen);
      }
    }
  }

  lemma OneEntry(p: Progress, a: WireAttr, asnLen: nat)
    requires asnLen == 2 || asnLen == 4
    requires Carried(a).Ok?
    ensures |Absorbed(p, a, asnLen).value.attributes| == |p.attributes| + 1
  {
  }

  // Replacing the value of an attribute by other octets of the same length changes neither
  // whether the message is accepted, nor any route or action, nor any other attribute's entry.
  lemma DamageIsIsolated(m: Message, k: nat, data: Bytes, asnLen: nat)
    requires asnLen == 2 || asnLen == 4
    requires k < |m.attrs| && |data| == |m.attrs[k].data| && !IsSensitive(m.attrs[k].code)
    ensures var r, s := Interpret(m, asnLen), Interpret(m.(attrs := Damaged(m.attrs, k, data)), asnLen);
            && (r.Ok? <==> s.Ok?)
            && (r.Ok? ==> SameButEntry(r.value.attributes, s.value.attributes, k)
                          && s.value == r.value.(attributes := s.value.attributes))
  {
    DamagedList(NOTHING, m.attrs, k, data, asnLen);
    var r := AbsorbList(m.attrs, NOTHING, asnLen);
    if r.Ok? {
      AlikeResolved(r.value, AbsorbList(Damaged(m.attrs, k, data), NOTHING, asnLen).value, k);
    }
  }

  lemma {:induction false} DamagedSize(attrs: seq<WireAttr>, k: nat, data: Bytes)
    requires ValidAttrs(attrs) && k < |attrs| && |data| == |attrs[k].data|
    ensures ValidAttrs(Damaged(attrs, k, data))
    ensures |EncodeAttrs(Damaged(attrs, k, data))| == |EncodeAttrs(attrs)|
    decreases |attrs|
  {
    var b := Damaged(attrs, k, data);
    assert ValidAttr(attrs[k]) && ValidAttr(attrs[0]);
    if k == 0 {
      assert b[1..] == attrs[1..];
    } else {
      assert b[1..] == Damaged(attrs[1..], k - 1, data);
      DamagedSize(attrs[1..], k - 1, data);
    }
  }

  // The same of the messages on the wire, octet for octet as long.
  lemma DamageOnTheWire(m: Message, k: nat, data: Bytes, asnLen: nat)
    requires asnLen == 2 || asnLen == 4
    requires ValidMessage(m) && k < |m.attrs| && |data| == |m.attrs[k].data| && !IsSensitive(m.attrs[k].code)
    ensures ValidMessage(m.(attrs := Damaged(m.attrs, k, data)))
    ensures var good, bad := EncodeUpdate(m), EncodeUpdate(m.(attrs := Damaged(m.attrs, k, data)));
            var r, s := ParseUpdate(good, asnLen), ParseUpdate(bad, asnLen);
            && |good| == |bad| && (r.Ok? <==> s.Ok?)
            && (r.Ok? ==> SameButEntry(r.value.attributes, s.value.attributes, k)
                          && s.value == r.value.(attributes := s.value.attributes))
  {
    hide Interpret, ParseUpdate, EncodeAttrs, Damaged;
    var b := m.(attrs := Damaged(m.attrs, k, data));
    DamagedSize(m.attrs, k, data);
    UpdateComplete(m, asnLen);
    UpdateComplete(b, asnLen);
    DamageIsIsolated(m, k, data, asnLen);
  }

  // An attribute that cannot be decoded is kept whole, in hexadecimal.
  lemma UndecodedKept(m: Message, k: nat, asnLen: nat)
    requires asnLen == 2 || asnLen == 4
    requires Interpret(m, asnLen).Ok? && k < |m.attrs|
    ensures var u := Interpret(m, asnLen).value;
            && |u.attributes| == |m.attrs|
            && (u.attributes[k].content.Raw? <==> Decoded(m.attrs[k].code, m.attrs[k].data, asnLen).Err?)
            && (u.attributes[k].content.Raw? ==> HexDecode(u.attributes[k].content.hex) == m.attrs[k].data)
  {
    InterpretEntries(m, asnLen);
    EntryOf(m.attrs, k, asnLen);
    ResolvedEntry(AbsorbList(m.attrs, NOTHING, asnLen).value, k);
    UndecodedEntry(m.attrs[k], asnLen);
  }

  lemma InterpretEntries(m: Message, asnLen: nat)
    requires asnLen == 2 || asnLen == 4
    requires Interpret(m, asnLen).Ok?
    ensures AbsorbList(m.attrs, NOTHING, asnLen).Ok?
    ensures Interpret(m, asnLen).value.attributes == Resolved(AbsorbList(m.attrs, NOTHING, asnLen).value).attributes
  {
  }

  lemma EntryOf(attrs: seq<WireAttr>, k: nat, asnLen: nat)
    requires asnLen == 2 || asnLen == 4
    requires AbsorbList(attrs, NOTHING, asnLen).Ok? && k < |attrs|
    ensures |AbsorbList(attrs, NOTHING, asnLen).value.attributes| == |attrs|
    ensures AbsorbList(attrs, NOTHING, asnLen).value.attributes[k] == AttrOf(attrs[k], asnLen)
  {
    assert [] + attrs == attrs;
    GatherAll(NOTHING, [], attrs, asnLen);
  }

  lemma ResolvedEntry(p: Progress, k: nat)
    requires k < |p.attributes|
    ensures |Resolved(p).attributes| == |p.attributes|
    ensures p.attributes[k].content.Raw? ==> Resolved(p).attributes[k] == p.attributes[k]
    ensures p.attributes[k].content.Value? ==> Resolved(p).attributes[k].content.Value?
  {
  }

  // Every entry of an accepted message is the one its attribute decodes to; only the actions of
  // an extended community attribute may have had a next hop written into them.
  lemma EntryKept(m: Message, k: nat, asnLen: nat)
    requires asnLen == 2 || asnLen == 4
    requires Interpret(m, asnLen).Ok? && k < |m.attrs|
    ensures var u := Interpret(m, asnLen).value;
            && |u.attributes| == |m.attrs|
            && u.attributes[k].code == m.attrs[k].code
            && (m.attrs[k].code != 16 ==> u.attributes[k] == AttrOf(m.attrs[k], asnLen))
  {
    InterpretEntries(m, asnLen);
    EntryOf(m.attrs, k, asnLen);
    RedirectedEntry(AbsorbList(m.attrs, NOTHING, asnLen).value, k);
  }

  lemma RedirectedEntry(p: Progress, k: nat)
    requires k < |p.attributes|
    ensures |Resolved(p).attributes| == |p.attributes|
    ensures Resolved(p).attributes[k].code == p.attributes[k].code
    ensures p.attributes[k].code != 16 ==> Resolved(p).attributes[k] == p.attributes[k]
  {
  }

  lemma UndecodedEntry(a: WireAttr, asnLen: nat)
    requires asnLen == 2 || asnLen == 4
    ensures AttrOf(a, asnLen).content.Raw? <==> Decoded(a.code, a.data, asnLen).Err?
    ensures AttrOf(a, asnLen).content.Raw? ==> HexDecode(AttrOf(a, asnLen).content.hex) == a.data
  {
    HexRoundTrip(a.data);
  }
}
