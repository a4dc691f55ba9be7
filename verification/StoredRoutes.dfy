/** What of a decoded UPDATE ends up in the routing table: every route, with its own data, in order. */
module StoredRoutes {
  import opened Base
  import opened Prefixes
  import opened FlowSpecGrammar
  import opened UpdateCodec
  import opened UpdateGrammar
  import opened UpdateProperties
  import opened AsPaths
  import opened Rib
  import opened RibUpdate

  // The next hop that is stored: none for an empty one.
  function StoredHop(hop: Option<Hop>): Option<Hop> {
    match hop
    case None => None
    case Some(h) => if h == NoHop then None else Some(h)
  }

  // A stored route is the k-th of a group, with what its UPDATE says of it.
  predicate StoredFrom(r: Route, u: Update, peer: Bytes, digest: Identity -> Id, group: Label, nlri: Nlri, k: nat)
    requires k < NlriSize(nlri)
  {
    && r.group == group && r.peer == peer && r.id == digest(IdentityOf(r))
    && r.asPath == Merged(LastPath(u.attributes, 2), LastPath(u.attributes, 17))
    && r.communities == AllCommunities(u.attributes)
    && (nlri.UnicastNlri? ==>
          && r.UnicastEntry? && r.prefix == nlri.routes[k].prefix && r.nextHop == StoredHop(nlri.routes[k].nextHop))
    && (nlri.FlowNlri? ==> r.FlowEntry? && r.rule == nlri.rules[k] && r.actions == u.actions)
  }

  function SizeOf(groups: map<Label, Nlri>, group: Label): nat {
    if group in groups then NlriSize(groups[group]) else 0
  }

  // How many routes stand before a group's: groups come in the order of their names.
  function Offset(groups: map<Label, Nlri>, group: Label): nat {
    match group
    case Ipv4FlowSpec => 0
    case Ipv4Unicast => SizeOf(groups, Ipv4FlowSpec)
    case Ipv6FlowSpec => SizeOf(groups, Ipv4FlowSpec) + SizeOf(groups, Ipv4Unicast)
    case Ipv6Unicast => SizeOf(groups, Ipv4FlowSpec) + SizeOf(groups, Ipv4Unicast) + SizeOf(groups, Ipv6FlowSpec)
  }

  // A group's operations, none if the UPDATE does not have it.
  function OwnOps(c: Context, announce: bool, groups: map<Label, Nlri>, group: Label): (ops: seq<Op>)
    ensures |ops| == SizeOf(groups, group)
  {
    if group in groups then GroupOps(c, announce, group, groups[group]) else []
  }

  lemma KindParts(c: Context, announce: bool, groups: map<Label, Nlri>)
    ensures KindOps(c, announce, groups, 4)
         == OwnOps(c, announce, groups, Ipv4FlowSpec) + OwnOps(c, announce, groups, Ipv4Unicast)
            + OwnOps(c, announce, groups, Ipv6FlowSpec) + OwnOps(c, announce, groups, Ipv6Unicast)
  {
    hide GroupOps;
    var own := OwnOps(c, announce, groups, Ipv4FlowSpec);
    assert KindOps(c, announce, groups, 0) == [];
    assert KindOps(c, announce, groups, 1) == [] + own == own;
    assert KindOps(c, announce, groups, 2) == own + OwnOps(c, announce, groups, Ipv4Unicast);
    assert KindOps(c, announce, groups, 3)
        == KindOps(c, announce, groups, 2) + OwnOps(c, announce, groups, Ipv6FlowSpec);
  }

  lemma FourParts<T>(a: seq<T>, b: seq<T>, c: seq<T>, d: seq<T>)
    ensures var all := a + b + c + d;
            && all[..|a|] == a && all[|a|..|a| + |b|] == b
            && all[|a| + |b|..|a| + |b| + |c|] == c && all[|a| + |b| + |c|..] == d
  {
  }

  lemma OwnPlace(c: Context, announce: bool, groups: map<Label, Nlri>, group: Label, k: nat)
    requires group in groups && k < NlriSize(groups[group])
    ensures var all := KindOps(c, announce, groups, 4);
            && Offset(groups, group) + k < |all|
            && all[Offset(groups, group) + k] == GroupOps(c, announce, group, groups[group])[k]
  {
    hide GroupOps, KindOps;
    var all, own := KindOps(c, announce, groups, 4), OwnOps(c, announce, groups, group);
    var at := Offset(groups, group);
    KindParts(c, announce, groups);
    FourParts(OwnOps(c, announce, groups, Ipv4FlowSpec), OwnOps(c, announce, groups, Ipv4Unicast),
              OwnOps(c, announce, groups, Ipv6FlowSpec), OwnOps(c, announce, groups, Ipv6Unicast));
    assert all[at..at + |own|] == own;
    assert all[at + k] == all[at..at + |own|][k];
  }

  lemma KindTotal(c: Context, announce: bool, groups: map<Label, Nlri>)
    ensures |KindOps(c, announce, groups, 4)| == Offset(groups, Ipv6Unicast) + SizeOf(groups, Ipv6Unicast)
  {
    hide KindOps, OwnOps;
    KindParts(c, announce, groups);
  }

  // The k-th route of a group is the operation at its place, and there are no other operations.
  lemma OperationsFollowRoutes(u: Update, announce: bool, groups: map<Label, Nlri>, peer: Bytes,
                               digest: Identity -> Id, group: Label, k: nat)
    requires group in groups && k < NlriSize(groups[group])
    ensures var ops, at := KindOps(ContextOf(u, peer, digest), announce, groups, 4), Offset(groups, group) + k;
            && at < |ops| && ops[at].announce == announce
            && StoredFrom(ops[at].route, u, peer, digest, group, groups[group], k)
    ensures |KindOps(ContextOf(u, peer, digest), announce, groups, 4)|
         == Offset(groups, Ipv6Unicast) + SizeOf(groups, Ipv6Unicast)
  {
    hide KindOps, Merged, LastPath, AllCommunities;
    var c := ContextOf(u, peer, digest);
    KindTotal(c, announce, groups);
    OwnPlace(c, announce, groups, group, k);
    GroupOpAt(c, announce, group, groups[group], k);
  }

  // The group and the place in it that an operation comes from.
  lemma OperationSource(groups: map<Label, Nlri>, j: nat) returns (group: Label, k: nat)
    requires j < Offset(groups, Ipv6Unicast) + SizeOf(groups, Ipv6Unicast)
    ensures group in groups && k < NlriSize(groups[group]) && j == Offset(groups, group) + k
  {
    if j < Offset(groups, Ipv4Unicast) {
      group := Ipv4FlowSpec;
    } else if j < Offset(groups, Ipv6FlowSpec) {
      group := Ipv4Unicast;
    } else if j < Offset(groups, Ipv6Unicast) {
      group := Ipv6FlowSpec;
    } else {
      group := Ipv6Unicast;
    }
    k := j - Offset(groups, group);
  }

  /* ---------- the same as a multiset ---------- */

  // What a stored route shows of the route it was decoded from.
  function ItemOf(r: Route): Item {
    match r
    case UnicastEntry(_, group, _, _, _, prefix, nextHop) => UnicastItem(group, UnicastRoute(prefix, nextHop))
    case FlowEntry(_, group, _, _, _, rule, _) => FlowItem(group, rule)
  }

  function ItemsIn(ops: seq<Op>): (items: seq<Item>)
    ensures |items| == |ops|
  {
    seq(|ops|, i requires 0 <= i < |ops| => ItemOf(ops[i].route))
  }

  // The routes with every empty next hop left out.
  function Trimmed(nlri: Nlri): Nlri {
    match nlri
    case UnicastNlri(routes) =>
      UnicastNlri(seq(|routes|, i requires 0 <= i < |routes| => routes[i].(nextHop := StoredHop(routes[i].nextHop))))
    case FlowNlri(rules) => nlri
  }

  function TrimmedAll(groups: map<Label, Nlri>): map<Label, Nlri> {
    map group | group in groups :: Trimmed(groups[group])
  }

  lemma ItemsAppend(a: seq<Op>, b: seq<Op>)
    ensures multiset(ItemsIn(a + b)) == multiset(ItemsIn(a)) + multiset(ItemsIn(b))
  {
    assert ItemsIn(a + b) == ItemsIn(a) + ItemsIn(b);
  }

  lemma GroupItemsStored(c: Context, announce: bool, group: Label, nlri: Nlri)
    ensures multiset(ItemsIn(GroupOps(c, announce, group, nlri))) == ItemsOf(group, Trimmed(nlri))
  {
    var items := ItemsIn(GroupOps(c, announce, group, nlri));
    match nlri
    case UnicastNlri(routes) =>
      var trimmed := Trimmed(nlri).routes;
      assert items == seq(|trimmed|, i requires 0 <= i < |trimmed| => UnicastItem(group, trimmed[i]));
    case FlowNlri(rules) =>
      assert items == seq(|rules|, i requires 0 <= i < |rules| => FlowItem(group, rules[i]));
  }

  lemma LabelItemsStored(c: Context, announce: bool, groups: map<Label, Nlri>, n: nat)
    requires n < 4
    ensures multiset(ItemsIn(KindOps(c, announce, groups, n + 1)))
         == multiset(ItemsIn(KindOps(c, announce, groups, n))) + GroupItems(TrimmedAll(groups), LABELS[n])
  {
    hide GroupOps, ItemsOf, Trimmed;
    var group := LABELS[n];
    if group in groups {
      ItemsAppend(KindOps(c, announce, groups, n), GroupOps(c, announce, group, groups[group]));
      GroupItemsStored(c, announce, group, groups[group]);
    } else {
      assert KindOps(c, announce, groups, n + 1) == KindOps(c, announce, groups, n) + [];
      ItemsAppend(KindOps(c, announce, groups, n), []);
    }
  }

  lemma KindItemsStored(c: Context, announce: bool, groups: map<Label, Nlri>)
    ensures multiset(ItemsIn(KindOps(c, announce, groups, 4))) == FiledItems(TrimmedAll(groups))
  {
    hide KindOps, GroupItems, TrimmedAll, ItemsIn;
    NothingStored(c, announce, groups);
    LabelItemsStored(c, announce, groups, 0);
    LabelItemsStored(c, announce, groups, 1);
    LabelItemsStored(c, announce, groups, 2);
    LabelItemsStored(c, announce, groups, 3);
    assert LABELS[0] == Ipv4FlowSpec && LABELS[1] == Ipv4Unicast;
    assert LABELS[2] == Ipv6FlowSpec && LABELS[3] == Ipv6Unicast;
  }

  lemma NothingStored(c: Context, announce: bool, groups: map<Label, Nlri>)
    ensures multiset(ItemsIn(KindOps(c, announce, groups, 0))) == multiset{}
  {
  }

  // The table is told of exactly the routes an UPDATE decodes to, each as often as it occurs.
  lemma EveryRouteIsApplied(u: Update, peer: Bytes, digest: Identity -> Id)
    ensures multiset(ItemsIn(Announces(u, peer, digest))) == FiledItems(TrimmedAll(u.announce))
    ensures multiset(ItemsIn(Withdraws(u, peer, digest))) == FiledItems(TrimmedAll(u.withdraw))
  {
    hide KindOps, FiledItems, TrimmedAll, ItemsIn;
    KindItemsStored(ContextOf(u, peer, digest), true, u.announce);
    KindItemsStored(ContextOf(u, peer, digest), false, u.withdraw);
  }

  /* ---------- what is in the table afterwards ---------- */

  // A route that no later operation mentions is in the table in the end.
  lemma {:induction false} LatestStays(rows: seq<Route>, ops: seq<Op>, j: nat)
    requires j < |ops| && ops[j].announce && !Superseded(ops, j)
    ensures ops[j].route in Apply(rows, ops)
  {
    var n := |ops| - 1;
    var before := Apply(rows, ops[..n]);
    if j < n {
      assert ops[n].route.id != ops[j].route.id;
      assert !Superseded(ops[..n], j);
      LatestStays(rows, ops[..n], j);
      WithoutOthers(before, ops[n].route.id, ops[j].route);
    }
  }

  lemma {:induction false} WithoutOthers(rows: seq<Route>, id: Id, r: Route)
    requires r in rows && r.id != id
    ensures r in Without(rows, id)
  {
    if rows[0] != r {
      WithoutOthers(rows[1..], id, r);
    }
  }

  lemma {:induction false} LastWithId(ops: seq<Op>, id: Id) returns (j: nat)
    requires Mentioned(ops, id)
    ensures j < |ops| && ops[j].route.id == id && !Superseded(ops, j)
  {
    var n := |ops| - 1;
    if ops[n].route.id == id {
      j := n;
    } else {
      MentionedLast(ops, id);
      j := LastWithId(ops[..n], id);
      assert forall i | 0 <= i < n :: ops[..n][i] == ops[i];
    }
  }

  // The identity of a group's k-th route.
  function IdentityAt(peer: Bytes, group: Label, nlri: Nlri, k: nat): Identity
    requires k < NlriSize(nlri)
  {
    match nlri
    case UnicastNlri(routes) => UnicastIdentity(group, peer, routes[k].prefix)
    case FlowNlri(rules) => FlowIdentity(group, peer, rules[k])
  }

  predicate InGroups(groups: map<Label, Nlri>, peer: Bytes, id: Identity) {
    exists group, k: nat ::
      group in groups && k < NlriSize(groups[group]) && IdentityAt(peer, group, groups[group], k) == id
  }

  // The k-th route of a group.
  lemma IdentityStored(r: Route, u: Update, peer: Bytes, digest: Identity -> Id, group: Label, nlri: Nlri, k: nat)
    requires k < NlriSize(nlri) && StoredFrom(r, u, peer, digest, group, nlri, k)
    ensures IdentityOf(r) == IdentityAt(peer, group, nlri, k)
  {
  }

  lemma MentionedIn(u: Update, announce: bool, groups: map<Label, Nlri>, peer: Bytes, digest: Identity -> Id, j: nat)
    returns (group: Label, k: nat)
    requires j < |KindOps(ContextOf(u, peer, digest), announce, groups, 4)|
    ensures group in groups && k < NlriSize(groups[group])
    ensures var r := KindOps(ContextOf(u, peer, digest), announce, groups, 4)[j].route;
            && StoredFrom(r, u, peer, digest, group, groups[group], k)
            && IdentityOf(r) == IdentityAt(peer, group, groups[group], k)
  {
    hide KindOps, StoredFrom, ContextOf;
    KindTotal(ContextOf(u, peer, digest), announce, groups);
    group, k := OperationSource(groups, j);
    OperationsFollowRoutes(u, announce, groups, peer, digest, group, k);
    IdentityStored(KindOps(ContextOf(u, peer, digest), announce, groups, 4)[j].route, u, peer, digest, group,
                   groups[group], k);
  }

  lemma KindMentions(u: Update, announce: bool, groups: map<Label, Nlri>, peer: Bytes, digest: Identity -> Id,
                     id: Identity)
    requires Injective(digest)
    ensures Mentioned(KindOps(ContextOf(u, peer, digest), announce, groups, 4), digest(id))
       <==> InGroups(groups, peer, id)
  {
    hide KindOps, StoredFrom, IdentityAt, IdentityOf, ContextOf, Offset;
    var ops := KindOps(ContextOf(u, peer, digest), announce, groups, 4);
    if Mentioned(ops, digest(id)) {
      var j :| 0 <= j < |ops| && ops[j].route.id == digest(id);
      var group, k := MentionedIn(u, announce, groups, peer, digest, j);
      StoredId(ops[j].route, u, peer, digest, group, groups[group], k);
      assert IdentityAt(peer, group, groups[group], k) == id;
    }
    if InGroups(groups, peer, id) {
      var group, k: nat :|
        group in groups && k < NlriSize(groups[group]) && IdentityAt(peer, group, groups[group], k) == id;
      OperationsFollowRoutes(u, announce, groups, peer, digest, group, k);
      var r := ops[Offset(groups, group) + k].route;
      StoredId(r, u, peer, digest, group, groups[group], k);
      IdentityStored(r, u, peer, digest, group, groups[group], k);
    }
  }

  lemma StoredId(r: Route, u: Update, peer: Bytes, digest: Identity -> Id, group: Label, nlri: Nlri, k: nat)
    requires k < NlriSize(nlri) && StoredFrom(r, u, peer, digest, group, nlri, k)
    ensures r.id == digest(IdentityOf(r))
  {
  }

  // Every route an UPDATE announces and does not withdraw is in the table after it, with the
  // UPDATE's own data and that of the route's last occurrence in its group.
  lemma AnnouncedIsStored(rows: seq<Route>, u: Update, peer: Bytes, digest: Identity -> Id, group: Label, k: nat)
    returns (r: Route, last: nat)
    requires Injective(digest) && group in u.announce && k < NlriSize(u.announce[group])
    requires !InGroups(u.withdraw, peer, IdentityAt(peer, group, u.announce[group], k))
    ensures r in Apply(rows, OpsOf(u, peer, digest))
    ensures last < NlriSize(u.announce[group]) && StoredFrom(r, u, peer, digest, group, u.announce[group], last)
    ensures IdentityAt(peer, group, u.announce[group], last) == IdentityAt(peer, group, u.announce[group], k)
  {
    hide KindOps, StoredFrom, Apply, IdentityOf, ContextOf, Offset, Mentioned, InGroups, Superseded;
    var up, down := Announces(u, peer, digest), Withdraws(u, peer, digest);
    var id := IdentityAt(peer, group, u.announce[group], k);
    KindMentions(u, true, u.announce, peer, digest, id);
    KindMentions(u, false, u.withdraw, peer, digest, id);
    InGroupsHas(u.announce, peer, group, k);
    var j := LastWithId(up, digest(id));
    KindOpsAre(ContextOf(u, peer, digest), true, u.announce, 4);
    LatestStays(rows, up, j);
    StaysUnmentioned(Apply(rows, up), down, up[j].route);
    ApplyAppend(rows, up, down);
    r := up[j].route;
    var g;
    g, last := MentionedIn(u, true, u.announce, peer, digest, j);
    StoredId(r, u, peer, digest, g, u.announce[g], last);
    SameGroup(peer, g, u.announce[g], last, group, u.announce[group], k);
  }

  lemma InGroupsHas(groups: map<Label, Nlri>, peer: Bytes, group: Label, k: nat)
    requires group in groups && k < NlriSize(groups[group])
    ensures InGroups(groups, peer, IdentityAt(peer, group, groups[group], k))
  {
  }

  lemma SameGroup(peer: Bytes, group: Label, nlri: Nlri, k: nat, group': Label, nlri': Nlri, k': nat)
    requires k < NlriSize(nlri) && k' < NlriSize(nlri')
    requires IdentityAt(peer, group, nlri, k) == IdentityAt(peer, group', nlri', k')
    ensures group == group'
  {
  }

  // A route that no operation mentions stays as it is.
  lemma {:induction false} StaysUnmentioned(rows: seq<Route>, ops: seq<Op>, r: Route)
    requires r in rows && !Mentioned(ops, r.id)
    ensures r in Apply(rows, ops)
  {
    if ops != [] {
      var n := |ops| - 1;
      MentionedLast(ops, r.id);
      StaysUnmentioned(rows, ops[..n], r);
      WithoutOthers(Apply(rows, ops[..n]), ops[n].route.id, r);
    }
  }

  // What an UPDATE withdraws is gone after it, and what it does not mention stays.
  lemma OthersAreKept(rows: seq<Route>, u: Update, peer: Bytes, digest: Identity -> Id, id: Identity)
    requires Injective(digest)
    ensures InGroups(u.withdraw, peer, id) ==> !Present(Apply(rows, OpsOf(u, peer, digest)), digest(id))
    ensures !InGroups(u.announce, peer, id) && !InGroups(u.withdraw, peer, id) ==>
              forall r | r in rows && r.id == digest(id) :: r in Apply(rows, OpsOf(u, peer, digest))
  {
    hide KindOps, Apply, ContextOf, Mentioned, InGroups, Present;
    var up, down := Announces(u, peer, digest), Withdraws(u, peer, digest);
    KindMentions(u, true, u.announce, peer, digest, id);
    KindMentions(u, false, u.withdraw, peer, digest, id);
    KindOpsAre(ContextOf(u, peer, digest), false, u.withdraw, 4);
    ApplyAppend(rows, up, down);
    RemovalsSpare(Apply(rows, up), down, digest(id));
    if !Mentioned(up, digest(id)) && !Mentioned(down, digest(id)) {
      forall r | r in rows && r.id == digest(id) ensures r in Apply(rows, up + down) {
        StaysUnmentioned(rows, up, r);
        StaysUnmentioned(Apply(rows, up), down, r);
      }
    }
  }

  // Nothing else gets in: a stored route was there before or is announced by the UPDATE.
  lemma NothingElseIsStored(rows: seq<Route>, u: Update, peer: Bytes, digest: Identity -> Id, r: Route)
    returns (group: Label, k: nat)
    requires r in Apply(rows, OpsOf(u, peer, digest)) && r !in rows
    ensures group in u.announce && k < NlriSize(u.announce[group])
    ensures StoredFrom(r, u, peer, digest, group, u.announce[group], k)
  {
    hide KindOps, StoredFrom, Apply, ContextOf, Offset;
    var up, down := Announces(u, peer, digest), Withdraws(u, peer, digest);
    ApplyAppend(rows, up, down);
    KindOpsAre(ContextOf(u, peer, digest), false, u.withdraw, 4);
    var none := AddedBy(Apply(rows, up), down, r);
    assert none.None?;
    var j := AddedBy(rows, up, r);
    group, k := MentionedIn(u, true, u.announce, peer, digest, j.value);
  }

  lemma {:induction false} AddedBy(rows: seq<Route>, ops: seq<Op>, r: Route) returns (j: Option<nat>)
    requires r in Apply(rows, ops)
    ensures j.None? ==> r in rows
    ensures j.Some? ==> j.value < |ops| && ops[j.value].announce && ops[j.value].route == r
  {
    if ops == [] {
      j := None;
    } else {
      var n := |ops| - 1;
      if ops[n].announce && ops[n].route == r {
        j := Some(n);
      } else {
        WithoutOnly(Apply(rows, ops[..n]), ops[n].route.id, r);
        j := AddedBy(rows, ops[..n], r);
      }
    }
  }

  lemma {:induction false} WithoutOnly(rows: seq<Route>, id: Id, r: Route)
    requires r in Without(rows, id)
    ensures r in rows
  {
    if rows[0] != r {
      WithoutOnly(rows[1..], id, r);
    }
  }

  /* ---------- from the wire to the table ---------- */

  // A source is the one its label is taken from when no later one has that label.
  lemma {:induction false} FiledFrom(attrs: seq<WireAttr>, j: nat, code: byte, s: Source)
    requires Readable(MpSources(attrs, code)) && j < |attrs| && SourceOf(attrs[j], code) == [s]
    requires forall l | j < l < |attrs| :: LabelFree(attrs[l], code, s.group)
    ensures s.routes.Ok? && s.group in FiledSources(MpSources(attrs, code))
    ensures FiledSources(MpSources(attrs, code))[s.group] == s.routes.value
  {
    hide FiledSources;
    var n := |attrs| - 1;
    var before, own := MpSources(attrs[..n], code), SourceOf(attrs[n], code);
    FrontReadable(before, own);
    if j == n {
      assert own[0].routes.Ok?;
      FiledAppend(before, s);
    } else {
      FiledFrom(attrs[..n], j, code, s);
      if own == [] {
        assert before + own == before;
      } else {
        assert own == [own[0]] && own[0].routes.Ok?;
        FiledAppend(before, own[0]);
        assert LabelFree(attrs[n], code, s.group);
      }
    }
  }

  // The attribute is no source of routes under that label.
  predicate LabelFree(a: WireAttr, code: byte, group: Label) {
    forall i | 0 <= i < |SourceOf(a, code)| :: SourceOf(a, code)[i].group != group
  }

  lemma FieldGroup(m: Message, ps: seq<WirePrefix>, asnLen: nat)
    requires asnLen == 2 || asnLen == 4
    requires Interpret(m, asnLen).Ok? && ValidWires(ps, AFI_IPV4) && ps != [] && m.nlri == EncodeWire(ps, AFI_IPV4)
    ensures Ipv4Unicast in Interpret(m, asnLen).value.announce
    ensures Interpret(m, asnLen).value.announce[Ipv4Unicast]
         == UnicastNlri(RoutesOf(ps, AFI_IPV4, Some(LastNextHop(m.attrs, asnLen))))
  {
    hide Interpret, UnicastRoutes, RoutesOf, LastNextHop;
    MessageMeaning(m, asnLen);
    UnicastComplete(ps, AFI_IPV4, Some(LastNextHop(m.attrs, asnLen)));
    var all := Announced(m, asnLen);
    assert all[|all| - 1].group == Ipv4Unicast;
    LastSourceWins(all, |all| - 1);
  }

  // End to end: a prefix in the NLRI field of an accepted message that the message does not also
  // withdraw is stored, with the prefix's leading bits, the message's next hop, its path and its
  // communities.
  lemma FieldReachesTable(m: Message, ps: seq<WirePrefix>, i: nat, asnLen: nat, rows: seq<Route>, peer: Bytes,
                          digest: Identity -> Id)
    requires asnLen == 2 || asnLen == 4
    requires ValidMessage(m) && ParseUpdate(EncodeUpdate(m), asnLen).Ok? && Injective(digest)
    requires ValidWires(ps, AFI_IPV4) && i < |ps| && m.nlri == EncodeWire(ps, AFI_IPV4)
    requires !InGroups(ParseUpdate(EncodeUpdate(m), asnLen).value.withdraw, peer,
                       UnicastIdentity(Ipv4Unicast, peer, Canonical(ps[i], AFI_IPV4)))
    ensures var u := ParseUpdate(EncodeUpdate(m), asnLen).value;
            var id := digest(UnicastIdentity(Ipv4Unicast, peer, Canonical(ps[i], AFI_IPV4)));
            UnicastEntry(id, Ipv4Unicast, peer, Merged(LastPath(u.attributes, 2), LastPath(u.attributes, 17)),
                         AllCommunities(u.attributes), Canonical(ps[i], AFI_IPV4),
                         StoredHop(Some(LastNextHop(m.attrs, asnLen))))
            in Apply(rows, OpsOf(u, peer, digest))
  {
    hide Interpret, ParseUpdate, EncodeUpdate, Apply, OpsOf, InGroups, LastNextHop, LastPath, AllCommunities, Merged;
    hide Canonical, EncodeWire;
    UpdateComplete(m, asnLen);
    FieldGroup(m, ps, asnLen);
    var u := ParseUpdate(EncodeUpdate(m), asnLen).value;
    var r, last := AnnouncedIsStored(rows, u, peer, digest, Ipv4Unicast, i);
  }

  lemma SectionGroup(m: Message, j: nat, s: Section, flags: byte, asnLen: nat)
    requires asnLen == 2 || asnLen == 4
    requires Interpret(m, asnLen).Ok? && ValidSection(s) && s.Reach? && j < |m.attrs|
    requires m.attrs[j] == WireAttr(flags, 14, EncodeSection(s))
    requires forall l | j < l < |m.attrs| :: LabelFree(m.attrs[l], 14, SectionLabel(s))
    requires SectionLabel(s) == Ipv4Unicast ==> m.nlri == []
    ensures SectionLabel(s) in Interpret(m, asnLen).value.announce
    ensures Interpret(m, asnLen).value.announce[SectionLabel(s)] == SectionRoutes(s)
  {
    hide Interpret, EncodeSection, SectionRoutes, SectionLabel, LastNextHop, SourceOf, MpSources, LabelFree;
    MessageMeaning(m, asnLen);
    SectionSource(s, flags);
    var src := Source(SectionLabel(s), Ok(SectionRoutes(s)));
    var mp, plain := MpSources(m.attrs, 14), PlainSource(m.nlri, Some(LastNextHop(m.attrs, asnLen)));
    FrontReadable(mp, plain);
    FiledFrom(m.attrs, j, 14, src);
    if plain == [] {
      assert mp + plain == mp;
    } else {
      assert plain == [plain[0]];
      FiledAppend(mp, plain[0]);
    }
  }

  lemma FrontReadable(a: seq<Source>, b: seq<Source>)
    requires Readable(a + b)
    ensures Readable(a) && Readable(b)
  {
    assert forall i | 0 <= i < |a| :: (a + b)[i] == a[i];
    assert forall i | 0 <= i < |b| :: (a + b)[|a| + i] == b[i];
  }

  // The same of every route that an MP_REACH_NLRI carries, prefix or rule, when it is the last to
  // carry its kind: it is stored with its own prefix and next hop, or its own rule and the
  // message's actions.
  lemma SectionReachesTable(m: Message, j: nat, s: Section, flags: byte, k: nat, asnLen: nat, rows: seq<Route>,
                            peer: Bytes, digest: Identity -> Id)
    requires asnLen == 2 || asnLen == 4
    requires ValidMessage(m) && ParseUpdate(EncodeUpdate(m), asnLen).Ok? && Injective(digest)
    requires ValidSection(s) && s.Reach? && j < |m.attrs| && k < NlriSize(SectionRoutes(s))
    requires m.attrs[j] == WireAttr(flags, 14, EncodeSection(s))
    requires forall l | j < l < |m.attrs| :: LabelFree(m.attrs[l], 14, SectionLabel(s))
    requires SectionLabel(s) == Ipv4Unicast ==> m.nlri == []
    requires !InGroups(ParseUpdate(EncodeUpdate(m), asnLen).value.withdraw, peer,
                       IdentityAt(peer, SectionLabel(s), SectionRoutes(s), k))
    ensures var u := ParseUpdate(EncodeUpdate(m), asnLen).value;
            SectionEntry(s, k, u, peer, digest) in Apply(rows, OpsOf(u, peer, digest))
  {
    hide Interpret, ParseUpdate, EncodeUpdate, Apply, OpsOf, InGroups, LastPath, AllCommunities, Merged;
    hide EncodeSection, LabelFree, Canonical, ShownRules, NextHop;
    UpdateComplete(m, asnLen);
    SectionGroup(m, j, s, flags, asnLen);
    var u := ParseUpdate(EncodeUpdate(m), asnLen).value;
    var r, last := AnnouncedIsStored(rows, u, peer, digest, SectionLabel(s), k);
  }

  // What is stored for the k-th route of a section.
  function SectionEntry(s: Section, k: nat, u: Update, peer: Bytes, digest: Identity -> Id): Route
    requires ValidSection(s) && s.Reach? && k < NlriSize(SectionRoutes(s))
  {
    var id := digest(IdentityAt(peer, SectionLabel(s), SectionRoutes(s), k));
    var path := Merged(LastPath(u.attributes, 2), LastPath(u.attributes, 17));
    match s.nlri
    case WirePrefixes(ps) =>
      UnicastEntry(id, SectionLabel(s), peer, path, AllCommunities(u.attributes), Canonical(ps[k], s.afi),
                   StoredHop(Some(NextHop(s.hop))))
    case WireRules(rs) =>
      FlowEntry(id, SectionLabel(s), peer, path, AllCommunities(u.attributes), ShownRules(rs, s.afi)[k], u.actions)
  }
}
