/** What a stored route contributes to the counters and analytics, and recounts over a table. */
module Metrics {
  import opened Base
  import opened Prefixes
  import opened FlowSpec
  import opened Attributes
  import opened UpdateCodec
  import opened Rib

  datatype CountKey = UnicastCount | FlowSpecCount | Ipv4Count | Ipv6Count

  datatype Table = CommunityTable | OriginTable | NextHopTable | LengthTable | ActionTable | ProtocolTable | PortTable

  datatype Cell = CommunityShown(community: Community) | NumberShown(number: nat) | HopShown(hop: Hop)
                 | ActionShown(action: Action) | TestShown(test: FlowSpec.Shown)

  type Metric = (Table, Cell)

  predicate IsIpv6(group: Label) {
    group == Ipv6Unicast || group == Ipv6FlowSpec
  }

  function CountKeys(r: Route): (CountKey, CountKey) {
    (if r.UnicastEntry? then UnicastCount else FlowSpecCount, if IsIpv6(r.group) then Ipv6Count else Ipv4Count)
  }

  function CommunityMetrics(communities: seq<Community>): (m: seq<Metric>)
    ensures |m| == |communities|
  {
    seq(|communities|, i requires 0 <= i < |communities| => (CommunityTable, CommunityShown(communities[i])))
  }

  function OriginMetrics(asPath: seq<nat>): seq<Metric> {
    if asPath == [] then [] else [(OriginTable, NumberShown(asPath[|asPath| - 1]))]
  }

  function HopMetrics(nextHop: Option<Hop>): seq<Metric> {
    if nextHop.Some? && nextHop.value != NoHop then [(NextHopTable, HopShown(nextHop.value))] else []
  }

  function LengthMetrics(prefix: Prefix): seq<Metric> {
    [(LengthTable, NumberShown(prefix.len))]
  }

  function ActionMetrics(actions: seq<Action>): (m: seq<Metric>)
    ensures |m| == |actions|
  {
    seq(|actions|, i requires 0 <= i < |actions| => (ActionTable, ActionShown(actions[i])))
  }

  function TestMetrics(table: Table, rule: Rule, name: Name): seq<Metric> {
    if name in rule && rule[name].Tests? then
      var tests := rule[name].tests;
      seq(|tests|, i requires 0 <= i < |tests| => (table, TestShown(tests[i])))
    else []
  }

  // One (table, value) pair for every time a route shows that value; repeats count again.
  function MetricsOf(r: Route): seq<Metric> {
    match r
    case UnicastEntry(_, _, _, asPath, communities, prefix, nextHop) =>
      CommunityMetrics(communities) + OriginMetrics(asPath) + HopMetrics(nextHop) + LengthMetrics(prefix)
    case FlowEntry(_, _, _, _, _, rule, actions) =>
      ActionMetrics(actions)
      + TestMetrics(ProtocolTable, rule, IpProto)
      + TestMetrics(PortTable, rule, Port)
      + TestMetrics(PortTable, rule, SrcPort)
      + TestMetrics(PortTable, rule, DstPort)
  }

  /* ---------- recounting from scratch ---------- */

  function Bag(r: Route): multiset<Metric> {
    multiset(MetricsOf(r))
  }

  function Keys(r: Route): multiset<CountKey> {
    multiset{CountKeys(r).0, CountKeys(r).1}
  }

  function Tally(rows: seq<Route>): multiset<Metric> {
    if rows == [] then multiset{} else Tally(rows[..|rows| - 1]) + Bag(rows[|rows| - 1])
  }

  function KeyTally(rows: seq<Route>): multiset<CountKey> {
    if rows == [] then multiset{} else KeyTally(rows[..|rows| - 1]) + Keys(rows[|rows| - 1])
  }

  lemma TallySnoc(rows: seq<Route>, r: Route)
    ensures Tally(rows + [r]) == Tally(rows) + Bag(r)
    ensures KeyTally(rows + [r]) == KeyTally(rows) + Keys(r)
  {
    assert (rows + [r])[..|rows|] == rows;
  }

  // Adding up what is left of a table after taking an entry out loses that entry's share.
  lemma {:induction false} TallyWithout(rows: seq<Route>, r: Route)
    requires Distinct(rows) && r in rows
    ensures Tally(rows) == Tally(Without(rows, r.id)) + Bag(r)
    ensures KeyTally(rows) == KeyTally(Without(rows, r.id)) + Keys(r)
  {
    var init, last := rows[..|rows| - 1], rows[|rows| - 1];
    assert rows == init + [last];
    WithoutAppend(init, [last], r.id);
    WithoutSingle(last, r.id);
    if last == r {
      assert !Rib.Present(init, r.id);
      WithoutAbsent(init, r.id);
      assert Without(rows, r.id) == init;
    } else {
      assert r in init && last.id != r.id;
      TallyWithout(init, r);
      TallySnoc(Without(init, r.id), last);
      Exchange(Tally(Without(init, r.id)), Bag(r), Bag(last));
      Exchange(KeyTally(Without(init, r.id)), Keys(r), Keys(last));
    }
  }

  lemma Exchange<T>(a: multiset<T>, b: multiset<T>, c: multiset<T>)
    ensures a + b + c == a + c + b
  {
  }

  function Image<T>(s: seq<T>, f: T -> Metric): (r: seq<Metric>)
    ensures |r| == |s|
  {
    seq(|s|, i requires 0 <= i < |s| => f(s[i]))
  }

  lemma {:induction false} ImageCount<T(!new)>(s: seq<T>, f: T -> Metric, x: T)
    requires forall a, b :: f(a) == f(b) ==> a == b
    ensures multiset(Image(s, f))[f(x)] == multiset(s)[x]
  {
    if s != [] {
      var n := |s| - 1;
      ImageCount(s[..n], f, x);
      assert Image(s, f) == Image(s[..n], f) + [f(s[n])];
      assert s == s[..n] + [s[n]];
    }
  }

  lemma CountsAppend(a: seq<Metric>, b: seq<Metric>, m: Metric)
    ensures multiset(a + b)[m] == multiset(a)[m] + multiset(b)[m]
  {
  }

  lemma CommunityCount(communities: seq<Community>, c: Community)
    ensures multiset(CommunityMetrics(communities))[(CommunityTable, CommunityShown(c))] == multiset(communities)[c]
  {
    var f := (x: Community) => (CommunityTable, CommunityShown(x));
    ImageCount(communities, f, c);
    assert CommunityMetrics(communities) == Image(communities, f);
  }

  // The five parts of a unicast route's metrics.
  lemma UnicastCounts(r: Route, m: Metric)
    requires r.UnicastEntry?
    ensures Bag(r)[m] == multiset(CommunityMetrics(r.communities))[m] + multiset(OriginMetrics(r.asPath))[m]
                         + multiset(HopMetrics(r.nextHop))[m] + multiset(LengthMetrics(r.prefix))[m]
  {
    hide CommunityMetrics, OriginMetrics, HopMetrics, LengthMetrics;
    var own, origin := CommunityMetrics(r.communities), OriginMetrics(r.asPath);
    var hop, length := HopMetrics(r.nextHop), LengthMetrics(r.prefix);
    CountsAppend(own + origin + hop, length, m);
    CountsAppend(own + origin, hop, m);
    CountsAppend(own, origin, m);
  }

  lemma FlowCounts(r: Route, m: Metric)
    requires r.FlowEntry?
    ensures Bag(r)[m]
         == multiset(ActionMetrics(r.actions))[m] + multiset(TestMetrics(ProtocolTable, r.rule, IpProto))[m]
            + multiset(TestMetrics(PortTable, r.rule, Port))[m] + multiset(TestMetrics(PortTable, r.rule, SrcPort))[m]
            + multiset(TestMetrics(PortTable, r.rule, DstPort))[m]
  {
    hide ActionMetrics, TestMetrics;
    var actions, protocols := ActionMetrics(r.actions), TestMetrics(ProtocolTable, r.rule, IpProto);
    var any, source, destination := TestMetrics(PortTable, r.rule, Port), TestMetrics(PortTable, r.rule, SrcPort),
                                    TestMetrics(PortTable, r.rule, DstPort);
    CountsAppend(actions + protocols + any + source, destination, m);
    CountsAppend(actions + protocols + any, source, m);
    CountsAppend(actions + protocols, any, m);
    CountsAppend(actions, protocols, m);
  }

  // What each part counts, and in which table alone.
  lemma CommunityPart(communities: seq<Community>, m: Metric)
    ensures multiset(CommunityMetrics(communities))[m]
         == if m.0 == CommunityTable && m.1.CommunityShown? then multiset(communities)[m.1.community] else 0
  {
    if m.0 == CommunityTable && m.1.CommunityShown? {
      CommunityCount(communities, m.1.community);
    } else {
      assert m !in CommunityMetrics(communities);
    }
  }

  lemma SinglePart(metrics: seq<Metric>, m: Metric)
    requires |metrics| <= 1
    ensures multiset(metrics)[m] == if metrics == [m] then 1 else 0
  {
    if metrics != [] {
      assert metrics == [metrics[0]];
    }
  }

  lemma ActionPart(actions: seq<Action>, m: Metric)
    ensures multiset(ActionMetrics(actions))[m]
         == if m.0 == ActionTable && m.1.ActionShown? then multiset(actions)[m.1.action] else 0
  {
    if m.0 == ActionTable && m.1.ActionShown? {
      var f := (x: Action) => (ActionTable, ActionShown(x));
      ImageCount(actions, f, m.1.action);
      assert ActionMetrics(actions) == Image(actions, f);
    } else {
      assert m !in ActionMetrics(actions);
    }
  }

  function TestsNamed(rule: Rule, name: Name): seq<FlowSpec.Shown> {
    if name in rule && rule[name].Tests? then rule[name].tests else []
  }

  lemma TestPart(table: Table, rule: Rule, name: Name, m: Metric)
    ensures multiset(TestMetrics(table, rule, name))[m]
         == if m.0 == table && m.1.TestShown? then multiset(TestsNamed(rule, name))[m.1.test] else 0
  {
    if m.0 == table && m.1.TestShown? {
      var f := (x: FlowSpec.Shown) => (table, TestShown(x));
      ImageCount(TestsNamed(rule, name), f, m.1.test);
      assert TestMetrics(table, rule, name) == Image(TestsNamed(rule, name), f);
    } else {
      assert m !in TestMetrics(table, rule, name);
    }
  }

  lemma UnicastParts(r: Route, m: Metric)
    requires r.UnicastEntry?
    ensures Bag(r)[m] == multiset(CommunityMetrics(r.communities))[m]
                         + (if OriginMetrics(r.asPath) == [m] then 1 else 0)
                         + (if HopMetrics(r.nextHop) == [m] then 1 else 0)
                         + (if LengthMetrics(r.prefix) == [m] then 1 else 0)
  {
    hide CommunityMetrics, Bag;
    UnicastCounts(r, m);
    SinglePart(OriginMetrics(r.asPath), m);
    SinglePart(HopMetrics(r.nextHop), m);
    SinglePart(LengthMetrics(r.prefix), m);
  }

  lemma FlowParts(r: Route, m: Metric)
    requires r.FlowEntry?
    ensures Bag(r)[m] == (if m.0 == ActionTable && m.1.ActionShown? then multiset(r.actions)[m.1.action] else 0)
                         + if !m.1.TestShown? then 0
                           else if m.0 == ProtocolTable then multiset(TestsNamed(r.rule, IpProto))[m.1.test]
                           else if m.0 != PortTable then 0
                           else multiset(TestsNamed(r.rule, Port))[m.1.test]
                                + multiset(TestsNamed(r.rule, SrcPort))[m.1.test]
                                + multiset(TestsNamed(r.rule, DstPort))[m.1.test]
  {
    hide ActionMetrics, TestMetrics, TestsNamed, Bag;
    FlowCounts(r, m);
    ActionPart(r.actions, m);
    TestPart(ProtocolTable, r.rule, IpProto, m);
    TestPart(PortTable, r.rule, Port, m);
    TestPart(PortTable, r.rule, SrcPort, m);
    TestPart(PortTable, r.rule, DstPort, m);
  }

  // A unicast route counts a community as often as it carries it, a FlowSpec route never.
  lemma CommunityShare(r: Route, c: Community)
    ensures Bag(r)[(CommunityTable, CommunityShown(c))] == if r.UnicastEntry? then multiset(r.communities)[c] else 0
  {
    hide CommunityMetrics, Bag;
    var m := (CommunityTable, CommunityShown(c));
    if r.UnicastEntry? {
      UnicastParts(r, m);
      CommunityPart(r.communities, m);
    } else {
      FlowParts(r, m);
    }
  }

  // A route counts for an origin AS exactly when it is unicast and its path ends there.
  lemma OriginShare(r: Route, asn: nat)
    ensures Bag(r)[(OriginTable, NumberShown(asn))]
         == if r.UnicastEntry? && asn in r.asPath && asn == r.asPath[|r.asPath| - 1] then 1 else 0
  {
    hide CommunityMetrics, Bag;
    var m := (OriginTable, NumberShown(asn));
    if r.UnicastEntry? {
      UnicastParts(r, m);
      CommunityPart(r.communities, m);
      assert r.asPath != [] ==> r.asPath[|r.asPath| - 1] in r.asPath;
    } else {
      FlowParts(r, m);
    }
  }

  // A route counts for a next hop exactly when it is unicast and has that next hop, not an empty one.
  lemma NextHopShare(r: Route, hop: Hop)
    ensures Bag(r)[(NextHopTable, HopShown(hop))]
         == if r.UnicastEntry? && r.nextHop == Some(hop) && hop != NoHop then 1 else 0
  {
    hide CommunityMetrics, Bag;
    var m := (NextHopTable, HopShown(hop));
    if r.UnicastEntry? {
      UnicastParts(r, m);
      CommunityPart(r.communities, m);
    } else {
      FlowParts(r, m);
    }
  }

  // A route counts for a prefix length exactly when it is unicast and its prefix is that long.
  lemma LengthShare(r: Route, len: nat)
    ensures Bag(r)[(LengthTable, NumberShown(len))] == if r.UnicastEntry? && r.prefix.len == len then 1 else 0
  {
    hide CommunityMetrics, Bag;
    var m := (LengthTable, NumberShown(len));
    if r.UnicastEntry? {
      UnicastParts(r, m);
      CommunityPart(r.communities, m);
    } else {
      FlowParts(r, m);
    }
  }

  lemma NoFlowTables(r: Route, m: Metric)
    requires r.UnicastEntry? && (m.0 == ActionTable || m.0 == ProtocolTable || m.0 == PortTable)
    ensures Bag(r)[m] == 0
  {
    hide CommunityMetrics, Bag;
    UnicastParts(r, m);
    CommunityPart(r.communities, m);
  }

  // A FlowSpec route counts an action as often as it carries it, a unicast route never.
  lemma ActionShare(r: Route, a: Action)
    ensures Bag(r)[(ActionTable, ActionShown(a))] == if r.FlowEntry? then multiset(r.actions)[a] else 0
  {
    hide Bag;
    if r.FlowEntry? {
      FlowParts(r, (ActionTable, ActionShown(a)));
    } else {
      NoFlowTables(r, (ActionTable, ActionShown(a)));
    }
  }

  // A protocol test counts as often as it stands in the protocol component.
  lemma ProtocolShare(r: Route, t: FlowSpec.Shown)
    ensures Bag(r)[(ProtocolTable, TestShown(t))]
         == if r.FlowEntry? then multiset(TestsNamed(r.rule, IpProto))[t] else 0
  {
    hide Bag;
    if r.FlowEntry? {
      FlowParts(r, (ProtocolTable, TestShown(t)));
    } else {
      NoFlowTables(r, (ProtocolTable, TestShown(t)));
    }
  }

  // A port test counts as often as it stands in any of the three port components.
  lemma PortShare(r: Route, t: FlowSpec.Shown)
    ensures Bag(r)[(PortTable, TestShown(t))]
         == if r.FlowEntry? then
              multiset(TestsNamed(r.rule, Port))[t] + multiset(TestsNamed(r.rule, SrcPort))[t]
              + multiset(TestsNamed(r.rule, DstPort))[t]
            else 0
  {
    hide Bag;
    if r.FlowEntry? {
      FlowParts(r, (PortTable, TestShown(t)));
    } else {
      NoFlowTables(r, (PortTable, TestShown(t)));
    }
  }

  // Values of the kind that a table shows.
  predicate KindFits(m: Metric) {
    match m.0
    case CommunityTable => m.1.CommunityShown?
    case OriginTable => m.1.NumberShown?
    case NextHopTable => m.1.HopShown?
    case LengthTable => m.1.NumberShown?
    case ActionTable => m.1.ActionShown?
    case ProtocolTable => m.1.TestShown?
    case PortTable => m.1.TestShown?
  }

  // Nothing else is counted.
  lemma OnlyFittingKinds(r: Route, m: Metric)
    requires !KindFits(m)
    ensures Bag(r)[m] == 0
  {
    hide CommunityMetrics, Bag;
    if r.UnicastEntry? {
      UnicastParts(r, m);
      CommunityPart(r.communities, m);
    } else {
      FlowParts(r, m);
    }
  }

  // How many routes a counter is for.
  function HowMany(rows: seq<Route>, key: CountKey): nat {
    if rows == [] then 0
    else HowMany(rows[..|rows| - 1], key) + if CountedBy(key, rows[|rows| - 1]) then 1 else 0
  }

  // The kind of route each counter is for.
  predicate CountedBy(key: CountKey, r: Route) {
    match key
    case UnicastCount => r.UnicastEntry?
    case FlowSpecCount => r.FlowEntry?
    case Ipv4Count => r.group == Ipv4Unicast || r.group == Ipv4FlowSpec
    case Ipv6Count => r.group == Ipv6Unicast || r.group == Ipv6FlowSpec
  }

  // Each counter is the number of the routes of its kind.
  lemma {:induction false} CountersCount(rows: seq<Route>, key: CountKey)
    ensures KeyTally(rows)[key] == HowMany(rows, key)
  {
    if rows != [] {
      var n := |rows| - 1;
      CountersCount(rows[..n], key);
      OwnKeys(rows[n], key);
    }
  }

  lemma OwnKeys(r: Route, key: CountKey)
    ensures Keys(r)[key] == if CountedBy(key, r) then 1 else 0
  {
  }

  // Each route counts once by family and once by address family.
  lemma {:induction false} CountsAddUp(rows: seq<Route>)
    ensures KeyTally(rows)[UnicastCount] + KeyTally(rows)[FlowSpecCount] == |rows|
    ensures KeyTally(rows)[Ipv4Count] + KeyTally(rows)[Ipv6Count] == |rows|
  {
    if rows != [] {
      CountsAddUp(rows[..|rows| - 1]);
    }
  }
}
