/** Applying one UPDATE to the stored routing table, and the events it gives rise to. */
module RibUpdate {
  import opened Base
  import opened Prefixes
  import opened FlowSpec
  import opened Attributes
  import opened UpdateCodec
  import opened AsPaths
  import UpdateProperties
  import opened Rib
  import opened RibStore

  // What all routes of one UPDATE share, and the digest that turns identities into ids.
  datatype Context = Context(peer: Bytes, asPath: seq<nat>, communities: seq<Community>, actions: seq<Action>,
                             digest: Identity -> Id)

  function UnicastRouteEntry(c: Context, group: Label, route: UnicastRoute): Route {
    UnicastEntry(c.digest(UnicastIdentity(group, c.peer, route.prefix)), group, c.peer, c.asPath, c.communities,
                 route.prefix, if route.nextHop == Some(NoHop) then None else route.nextHop)
  }

  function FlowRouteEntry(c: Context, group: Label, rule: Rule): Route {
    FlowEntry(c.digest(FlowIdentity(group, c.peer, rule)), group, c.peer, c.asPath, c.communities, rule, c.actions)
  }

  function NlriSize(nlri: Nlri): nat {
    if nlri.UnicastNlri? then |nlri.routes| else |nlri.rules|
  }

  function EntryAt(c: Context, group: Label, nlri: Nlri, i: nat): Route
    requires i < NlriSize(nlri)
  {
    if nlri.UnicastNlri? then UnicastRouteEntry(c, group, nlri.routes[i]) else FlowRouteEntry(c, group, nlri.rules[i])
  }

  function GroupOps(c: Context, announce: bool, group: Label, nlri: Nlri): (ops: seq<Op>)
    ensures |ops| == NlriSize(nlri)
  {
    seq(NlriSize(nlri), i requires 0 <= i < NlriSize(nlri) => Op(announce, EntryAt(c, group, nlri, i)))
  }

  const LABELS: seq<Label> := [Ipv4FlowSpec, Ipv4Unicast, Ipv6FlowSpec, Ipv6Unicast]

  // The operations of one kind: the groups by name, each in its own order.
  function KindOps(c: Context, announce: bool, groups: map<Label, Nlri>, n: nat): seq<Op>
    requires n <= 4
  {
    if n == 0 then []
    else
      KindOps(c, announce, groups, n - 1)
      + if LABELS[n - 1] in groups then GroupOps(c, announce, LABELS[n - 1], groups[LABELS[n - 1]]) else []
  }

  function ContextOf(u: Update, peer: Bytes, digest: Identity -> Id): Context {
    Context(peer, Merged(LastPath(u.attributes, 2), LastPath(u.attributes, 17)), AllCommunities(u.attributes),
            u.actions, digest)
  }

  function Announces(u: Update, peer: Bytes, digest: Identity -> Id): seq<Op> {
    KindOps(ContextOf(u, peer, digest), true, u.announce, 4)
  }

  function Withdraws(u: Update, peer: Bytes, digest: Identity -> Id): seq<Op> {
    KindOps(ContextOf(u, peer, digest), false, u.withdraw, 4)
  }

  // All announcements come before all withdrawals.
  function OpsOf(u: Update, peer: Bytes, digest: Identity -> Id): seq<Op> {
    Announces(u, peer, digest) + Withdraws(u, peer, digest)
  }

  /* ---------- event rows ---------- */

  // A row of an announce or withdraw event; it names a route id when the table has or had it.
  datatype EventRow = EventRow(route: Route, routeId: Option<Id>)

  function RowFor(rows: seq<Route>, op: Op): EventRow {
    EventRow(op.route, if op.announce || Present(rows, op.route.id) then Some(op.route.id) else None)
  }

  function EventRows(rows: seq<Route>, ops: seq<Op>): (r: seq<EventRow>)
    ensures |r| == |ops|
  {
    if ops == [] then []
    else
      EventRows(rows, ops[..|ops| - 1]) + [RowFor(Apply(rows, ops[..|ops| - 1]), ops[|ops| - 1])]
  }

  lemma {:induction false} EventRowsAppend(rows: seq<Route>, a: seq<Op>, b: seq<Op>)
    ensures EventRows(rows, a + b) == EventRows(rows, a) + EventRows(Apply(rows, a), b)
  {
    if b == [] {
      assert a + b == a;
      assert EventRows(rows, a) + [] == EventRows(rows, a);
    } else {
      var n := |b| - 1;
      assert (a + b)[..|a| + n] == a + b[..n];
      EventRowsAppend(rows, a, b[..n]);
      ApplyAppend(rows, a, b[..n]);
    }
  }

  lemma OneOp(rows: seq<Route>, op: Op)
    ensures Apply(rows, [op]) == Step(rows, op) && EventRows(rows, [op]) == [RowFor(rows, op)]
  {
    assert [op][..0] == [];
  }

  /* ---------- the loops ---------- */

  method ApplyOne(data: Data, announce: bool, entry: Route) returns (row: EventRow)
    requires data.Valid()
    modifies data
    ensures data.Valid() && data.View() == Step(old(data.View()), Op(announce, entry))
    ensures row == RowFor(old(data.View()), Op(announce, entry))
  {
    hide Without, Present, Data.Valid, Data.View;
    var existed := data.Remove(entry.id);
    var kept := data.View();
    if announce {
      data.Insert(entry.id, entry);
    } else {
      assert kept + [] == kept;
    }
    row := EventRow(entry, if announce || existed then Some(entry.id) else None);
  }

  method ApplyGroup(data: Data, c: Context, announce: bool, group: Label, nlri: Nlri) returns (rows: seq<EventRow>)
    requires data.Valid()
    modifies data
    ensures data.Valid() && data.View() == Apply(old(data.View()), GroupOps(c, announce, group, nlri))
    ensures rows == EventRows(old(data.View()), GroupOps(c, announce, group, nlri))
  {
    hide Step, RowFor, GroupOps, Data.Valid, Data.View;
    ghost var ops := GroupOps(c, announce, group, nlri);
    rows := [];
    assert ops[..0] == [];
    for i := 0 to NlriSize(nlri)
      invariant data.Valid() && data.View() == Apply(old(data.View()), ops[..i])
      invariant rows == EventRows(old(data.View()), ops[..i])
    {
      var entry := EntryAt(c, group, nlri, i);
      GroupOpAt(c, announce, group, nlri, i);
      assert ops[..i + 1][..i] == ops[..i];
      var row := ApplyOne(data, announce, entry);
      rows := rows + [row];
    }
    assert ops[..|ops|] == ops;
  }

  lemma NoOps(rows: seq<Route>)
    ensures Apply(rows, []) == rows && EventRows(rows, []) == []
  {
  }

  lemma GroupOpAt(c: Context, announce: bool, group: Label, nlri: Nlri, i: nat)
    requires i < NlriSize(nlri)
    ensures GroupOps(c, announce, group, nlri)[i] == Op(announce, EntryAt(c, group, nlri, i))
  {
  }

  method ApplyKind(data: Data, c: Context, announce: bool, groups: map<Label, Nlri>) returns (rows: seq<EventRow>)
    requires data.Valid()
    modifies data
    ensures data.Valid() && data.View() == Apply(old(data.View()), KindOps(c, announce, groups, 4))
    ensures rows == EventRows(old(data.View()), KindOps(c, announce, groups, 4))
  {
    hide GroupOps, Apply, EventRows, Data.Valid, Data.View;
    NoOps(data.View());
    rows := [];
    for n := 0 to 4
      invariant data.Valid() && data.View() == Apply(old(data.View()), KindOps(c, announce, groups, n))
      invariant rows == EventRows(old(data.View()), KindOps(c, announce, groups, n))
    {
      ghost var done := KindOps(c, announce, groups, n);
      if LABELS[n] in groups {
        ghost var more := GroupOps(c, announce, LABELS[n], groups[LABELS[n]]);
        ApplyAppend(old(data.View()), done, more);
        EventRowsAppend(old(data.View()), done, more);
        var added := ApplyGroup(data, c, announce, LABELS[n], groups[LABELS[n]]);
        rows := rows + added;
      } else {
        assert KindOps(c, announce, groups, n + 1) == done + [] == done;
      }
    }
  }

  // One UPDATE: the table afterwards, and one batch of event rows for each kind that has any.
  method ApplyUpdate(data: Data, u: Update, peer: Bytes, digest: Identity -> Id)
    returns (batches: map<bool, seq<EventRow>>)
    requires data.Valid()
    modifies data
    ensures data.Valid() && data.View() == Apply(old(data.View()), OpsOf(u, peer, digest))
    ensures var up, down := Announces(u, peer, digest), Withdraws(u, peer, digest);
            && (true in batches <==> up != []) && (false in batches <==> down != [])
            && (up != [] ==> batches[true] == EventRows(old(data.View()), up))
            && (down != [] ==> batches[false] == EventRows(Apply(old(data.View()), up), down))
  {
    hide Data.Valid, Data.View, KindOps, Apply, EventRows, Merged, LastPath, AllCommunities;
    var path, communities := GatherPath(u.attributes);
    var c := Context(peer, path, communities, u.actions, digest);
    ApplyAppend(data.View(), Announces(u, peer, digest), Withdraws(u, peer, digest));
    var announced := ApplyKind(data, c, true, u.announce);
    var withdrawn := ApplyKind(data, c, false, u.withdraw);
    batches := map[];
    if announced != [] {
      batches := batches[true := announced];
    }
    if withdrawn != [] {
      batches := batches[false := withdrawn];
    }
  }

  lemma KindSize(c: Context, announce: bool, groups: map<Label, Nlri>)
    ensures |KindOps(c, announce, groups, 4)| == |UpdateProperties.FiledItems(groups)|
  {
    forall group | group in groups
      ensures |UpdateProperties.ItemsOf(group, groups[group])| == |GroupOps(c, announce, group, groups[group])|
    {
    }
    hide GroupOps;
    assert forall n | 0 <= n < 4 ::
        |KindOps(c, announce, groups, n + 1)|
        == |KindOps(c, announce, groups, n)| + |UpdateProperties.GroupItems(groups, LABELS[n])|;
    assert |KindOps(c, announce, groups, 0)| == 0;
    assert |KindOps(c, announce, groups, 1)| == |UpdateProperties.GroupItems(groups, Ipv4FlowSpec)|;
    assert |KindOps(c, announce, groups, 4)|
        == |KindOps(c, announce, groups, 3)| + |UpdateProperties.GroupItems(groups, Ipv6Unicast)|;
  }

  lemma {:induction false} RowsShowRoutes(rows: seq<Route>, ops: seq<Op>, i: nat)
    requires i < |ops|
    ensures EventRows(rows, ops)[i].route == ops[i].route
  {
    if i < |ops| - 1 {
      RowsShowRoutes(rows, ops[..|ops| - 1], i);
    }
  }

  // An UPDATE's announce and withdraw events have a row for every route it decodes to.
  lemma RowsAreDecoded(rows: seq<Route>, u: Update, peer: Bytes, digest: Identity -> Id)
    ensures |EventRows(rows, Announces(u, peer, digest))| == |UpdateProperties.FiledItems(u.announce)|
    ensures |EventRows(rows, Withdraws(u, peer, digest))| == |UpdateProperties.FiledItems(u.withdraw)|
    ensures forall i | 0 <= i < |Announces(u, peer, digest)| ::
              EventRows(rows, Announces(u, peer, digest))[i].route == Announces(u, peer, digest)[i].route
    ensures forall i | 0 <= i < |Withdraws(u, peer, digest)| ::
              EventRows(rows, Withdraws(u, peer, digest))[i].route == Withdraws(u, peer, digest)[i].route
  {
    hide EventRows, KindOps;
    var up, down := Announces(u, peer, digest), Withdraws(u, peer, digest);
    forall i | 0 <= i < |up| ensures EventRows(rows, up)[i].route == up[i].route {
      RowsShowRoutes(rows, up, i);
    }
    forall i | 0 <= i < |down| ensures EventRows(rows, down)[i].route == down[i].route {
      RowsShowRoutes(rows, down, i);
    }
    KindSize(ContextOf(u, peer, digest), true, u.announce);
    KindSize(ContextOf(u, peer, digest), false, u.withdraw);
  }

  /* ---------- conservation ---------- */

  predicate AllAre(ops: seq<Op>, announce: bool) {
    forall i | 0 <= i < |ops| :: ops[i].announce == announce
  }

  // The ids announced that the table did not have.
  function NewIds(rows: seq<Route>, ops: seq<Op>): set<Id> {
    set i | 0 <= i < |ops| && !Present(rows, ops[i].route.id) :: ops[i].route.id
  }

  lemma NewIdsSnoc(rows: seq<Route>, ops: seq<Op>, op: Op)
    ensures NewIds(rows, ops + [op])
         == NewIds(rows, ops) + if Present(rows, op.route.id) then {} else {op.route.id}
  {
    var all := ops + [op];
    assert forall i | 0 <= i < |ops| :: all[i] == ops[i];
    forall id | id in NewIds(rows, ops) ensures id in NewIds(rows, all) {
      var i :| 0 <= i < |ops| && !Present(rows, ops[i].route.id) && ops[i].route.id == id;
      assert all[i].route.id == id;
    }
    if !Present(rows, op.route.id) {
      assert all[|ops|].route.id in NewIds(rows, all);
    }
  }

  lemma {:induction false} AnnouncedPresent(rows: seq<Route>, ops: seq<Op>, id: Id)
    requires AllAre(ops, true)
    ensures Present(Apply(rows, ops), id) <==> Present(rows, id) || id in NewIds(rows, ops)
  {
    if ops == [] {
    } else {
      var n := |ops| - 1;
      AnnouncedPresent(rows, ops[..n], id);
      StepPresent(Apply(rows, ops[..n]), ops[n]);
      NewIdsSnoc(rows, ops[..n], ops[n]);
      assert ops == ops[..n] + [ops[n]];
    }
  }

  lemma {:induction false} AnnouncementsAdd(rows: seq<Route>, ops: seq<Op>)
    requires Distinct(rows) && AllAre(ops, true)
    ensures |Apply(rows, ops)| == |rows| + |NewIds(rows, ops)|
  {
    if ops == [] {
      assert NewIds(rows, ops) == {};
    } else {
      var n := |ops| - 1;
      var id := ops[n].route.id;
      AnnouncementsAdd(rows, ops[..n]);
      ApplyDistinct(rows, ops[..n]);
      StepDistinct(Apply(rows, ops[..n]), ops[n]);
      AnnouncedPresent(rows, ops[..n], id);
      NewIdsSnoc(rows, ops[..n], ops[n]);
      assert ops == ops[..n] + [ops[n]];
    }
  }

  // How many rows name a route.
  function Named(rows: seq<EventRow>): nat {
    if rows == [] then 0 else Named(rows[..|rows| - 1]) + if rows[|rows| - 1].routeId.Some? then 1 else 0
  }

  lemma {:induction false} WithdrawalsRemove(rows: seq<Route>, ops: seq<Op>)
    requires Distinct(rows) && AllAre(ops, false)
    ensures |Apply(rows, ops)| == |rows| - Named(EventRows(rows, ops))
  {
    if ops != [] {
      var n := |ops| - 1;
      WithdrawalsRemove(rows, ops[..n]);
      ApplyDistinct(rows, ops[..n]);
      StepDistinct(Apply(rows, ops[..n]), ops[n]);
      var before := EventRows(rows, ops[..n]);
      assert EventRows(rows, ops)[..n] == before;
    }
  }

  lemma {:induction false} KindOpsAre(c: Context, announce: bool, groups: map<Label, Nlri>, n: nat)
    requires n <= 4
    ensures AllAre(KindOps(c, announce, groups, n), announce)
  {
    if n > 0 {
      KindOpsAre(c, announce, groups, n - 1);
    }
  }

  // Routes after = routes before + newly announced ids - withdraw rows that name a route, even
  // when the message repeats itself.
  lemma UpdateConservation(rows: seq<Route>, u: Update, peer: Bytes, digest: Identity -> Id)
    requires Distinct(rows)
    ensures |Apply(rows, OpsOf(u, peer, digest))|
         == |rows| + |NewIds(rows, Announces(u, peer, digest))|
            - Named(EventRows(Apply(rows, Announces(u, peer, digest)), Withdraws(u, peer, digest)))
  {
    var up, down := Announces(u, peer, digest), Withdraws(u, peer, digest);
    KindOpsAre(ContextOf(u, peer, digest), true, u.announce, 4);
    KindOpsAre(ContextOf(u, peer, digest), false, u.withdraw, 4);
    AnnouncementsAdd(rows, up);
    ApplyDistinct(rows, up);
    WithdrawalsRemove(Apply(rows, up), down);
    ApplyAppend(rows, up, down);
  }

  // A withdraw row names its route exactly when the table had it just before.
  lemma WithdrawRowNames(rows: seq<Route>, ops: seq<Op>, i: nat)
    requires AllAre(ops, false) && i < |ops|
    ensures EventRows(rows, ops)[i].routeId
         == if Present(Apply(rows, ops[..i]), ops[i].route.id) then Some(ops[i].route.id) else None
    decreases |ops|
  {
    var n := |ops| - 1;
    if i < n {
      WithdrawRowNames(rows, ops[..n], i);
      assert ops[..n][..i] == ops[..i];
    }
  }

  // A route both announced and withdrawn by one message is absent after it.
  lemma WithdrawWins(rows: seq<Route>, u: Update, peer: Bytes, digest: Identity -> Id, i: nat)
    requires i < |Withdraws(u, peer, digest)|
    ensures !Present(Apply(rows, OpsOf(u, peer, digest)), Withdraws(u, peer, digest)[i].route.id)
  {
    var up, down := Announces(u, peer, digest), Withdraws(u, peer, digest);
    KindOpsAre(ContextOf(u, peer, digest), false, u.withdraw, 4);
    ApplyAppend(rows, up, down);
    WithdrawnGone(Apply(rows, up), down, i);
  }

  lemma {:induction false} WithdrawnGone(rows: seq<Route>, ops: seq<Op>, i: nat)
    requires AllAre(ops, false) && i < |ops|
    ensures !Present(Apply(rows, ops), ops[i].route.id)
  {
    var n := |ops| - 1;
    StepPresent(Apply(rows, ops[..n]), ops[n]);
    if i < n {
      WithdrawnGone(rows, ops[..n], i);
    }
  }

  predicate Mentioned(ops: seq<Op>, id: Id) {
    exists j :: 0 <= j < |ops| && ops[j].route.id == id
  }

  lemma MentionedLast(ops: seq<Op>, id: Id)
    requires ops != []
    ensures Mentioned(ops, id) <==> Mentioned(ops[..|ops| - 1], id) || ops[|ops| - 1].route.id == id
  {
    var init := ops[..|ops| - 1];
    if Mentioned(init, id) {
      var j :| 0 <= j < |init| && init[j].route.id == id;
      assert ops[j].route.id == id;
    }
    if Mentioned(ops, id) && ops[|ops| - 1].route.id != id {
      var j :| 0 <= j < |ops| && ops[j].route.id == id;
      assert init[j].route.id == id;
    }
  }

  // Removals leave an id alone exactly when none of them mentions it.
  lemma {:induction false} RemovalsSpare(rows: seq<Route>, ops: seq<Op>, id: Id)
    requires AllAre(ops, false)
    ensures Present(Apply(rows, ops), id) <==> Present(rows, id) && !Mentioned(ops, id)
  {
    hide Present, Mentioned, Step;
    if ops == [] {
      assert !Mentioned([], id) by {
        NoMention(id);
      }
    } else {
      var n := |ops| - 1;
      RemovalsSpare(rows, ops[..n], id);
      StepPresent(Apply(rows, ops[..n]), ops[n]);
      MentionedLast(ops, id);
    }
  }

  lemma NoMention(id: Id)
    ensures !Mentioned([], id)
  {
  }

  // A route announced by a message is there after it if and only if the message does not also
  // withdraw it.
  lemma AnnouncedSurvives(rows: seq<Route>, u: Update, peer: Bytes, digest: Identity -> Id, i: nat)
    requires i < |Announces(u, peer, digest)|
    ensures Present(Apply(rows, OpsOf(u, peer, digest)), Announces(u, peer, digest)[i].route.id)
       <==> !Mentioned(Withdraws(u, peer, digest), Announces(u, peer, digest)[i].route.id)
  {
    hide KindOps, Apply, Present, Mentioned;
    var up, down := Announces(u, peer, digest), Withdraws(u, peer, digest);
    KindOpsAre(ContextOf(u, peer, digest), true, u.announce, 4);
    KindOpsAre(ContextOf(u, peer, digest), false, u.withdraw, 4);
    ApplyAppend(rows, up, down);
    RemovalsSpare(Apply(rows, up), down, up[i].route.id);
    AnnouncedPresent(rows, up, up[i].route.id);
    NewIdsHas(rows, up, i);
  }

  lemma NewIdsHas(rows: seq<Route>, ops: seq<Op>, i: nat)
    requires i < |ops|
    ensures Present(rows, ops[i].route.id) || ops[i].route.id in NewIds(rows, ops)
  {
    hide Present;
  }

  /* ---------- a message that withdraws what it announces ---------- */

  // Withdrawn 192.0.2.0/24, no attributes, NLRI 192.0.2.0/24.
  const BOTH_FIELDS: Bytes := [0, 4, 24, 192, 0, 2, 0, 0, 24, 192, 0, 2]

  const DOCUMENTATION: Prefix := Prefix(AFI_IPV4, [192, 0, 2, 0], 24)

  lemma DocumentationRoutes(nextHop: Option<Hop>)
    ensures UnicastRoutes([24, 192, 0, 2], AFI_IPV4, nextHop) == Ok([UnicastRoute(DOCUMENTATION, nextHop)])
  {
    var octets: Bytes := [24, 192, 0, 2];
    assert octets[..1] == [24] && octets[1..] == [192, 0, 2];
    var raw: Bytes := [192, 0, 2];
    assert raw[..3] == raw && raw[3..] == [];
    assert Padded(raw, 4) == DOCUMENTATION.address;
    assert Masked(DOCUMENTATION.address, 24) == DOCUMENTATION.address;
    assert [UnicastRoute(DOCUMENTATION, nextHop)] + [] == [UnicastRoute(DOCUMENTATION, nextHop)];
  }

  lemma BothFieldsDecoded(asnLen: nat)
    requires asnLen == 2 || asnLen == 4
    ensures ParseUpdate(BOTH_FIELDS, asnLen)
         == Ok(Update(map[Ipv4Unicast := UnicastNlri([UnicastRoute(DOCUMENTATION, Some(NoHop))])],
                      map[Ipv4Unicast := UnicastNlri([UnicastRoute(DOCUMENTATION, None)])], [], []))
  {
    hide UnicastRoutes;
    var d := BOTH_FIELDS;
    assert d[..2] == [0, 4] && d[2..] == [24, 192, 0, 2, 0, 0, 24, 192, 0, 2];
    assert d[2..][..4] == [24, 192, 0, 2] && d[2..][4..] == [0, 0, 24, 192, 0, 2];
    assert d[2..][4..][..2] == [0, 0] && d[2..][4..][2..] == [24, 192, 0, 2];
    assert d[2..][4..][2..][..0] == [] && d[2..][4..][2..][0..] == [24, 192, 0, 2];
    DocumentationRoutes(None);
    DocumentationRoutes(Some(NoHop));
  }

  // Whatever the table held, that message leaves its own route out of it.
  lemma BothFieldsAbsent(rows: seq<Route>, asnLen: nat, peer: Bytes, digest: Identity -> Id)
    requires asnLen == 2 || asnLen == 4
    ensures ParseUpdate(BOTH_FIELDS, asnLen).Ok?
    ensures var u := ParseUpdate(BOTH_FIELDS, asnLen).value;
            var id := digest(UnicastIdentity(Ipv4Unicast, peer, DOCUMENTATION));
            && |Announces(u, peer, digest)| == 1 && Announces(u, peer, digest)[0].route.id == id
            && !Present(Apply(rows, OpsOf(u, peer, digest)), id)
  {
    hide ParseUpdate, Apply, Present;
    BothFieldsDecoded(asnLen);
    var u := ParseUpdate(BOTH_FIELDS, asnLen).value;
    OnlyUnicast(ContextOf(u, peer, digest), true, u.announce, UnicastRoute(DOCUMENTATION, Some(NoHop)));
    OnlyUnicast(ContextOf(u, peer, digest), false, u.withdraw, UnicastRoute(DOCUMENTATION, None));
    WithdrawWins(rows, u, peer, digest, 0);
  }

  lemma OnlyUnicast(c: Context, announce: bool, groups: map<Label, Nlri>, route: UnicastRoute)
    requires groups == map[Ipv4Unicast := UnicastNlri([route])]
    ensures KindOps(c, announce, groups, 4) == [Op(announce, UnicastRouteEntry(c, Ipv4Unicast, route))]
  {
    assert KindOps(c, announce, groups, 1) == [];
    assert GroupOps(c, announce, Ipv4Unicast, groups[Ipv4Unicast])
        == [Op(announce, UnicastRouteEntry(c, Ipv4Unicast, route))];
    assert KindOps(c, announce, groups, 2) == [Op(announce, UnicastRouteEntry(c, Ipv4Unicast, route))];
    assert KindOps(c, announce, groups, 3) == KindOps(c, announce, groups, 2);
  }
}
