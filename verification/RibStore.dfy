/**
 * The routing table as it is stored: routes by sequence number, an index from ids to sequence
 * numbers, and counters and analytics kept up to date one route at a time.
 */
module RibStore {
  import opened Rib
  import opened Metrics

  /* ---------- the ordered map read as a list ---------- */

  // The routes with sequence numbers 1..n, in that order.
  function Rows(routes: map<nat, Route>, n: nat): seq<Route> {
    if n == 0 then [] else Rows(routes, n - 1) + if n in routes then [routes[n]] else []
  }

  lemma {:induction false} RowsFrame(routes: map<nat, Route>, other: map<nat, Route>, n: nat)
    requires forall k | 1 <= k <= n :: (k in routes <==> k in other) && (k in routes ==> routes[k] == other[k])
    ensures Rows(routes, n) == Rows(other, n)
  {
    if n > 0 {
      RowsFrame(routes, other, n - 1);
    }
  }

  predicate UniqueIds(routes: map<nat, Route>) {
    forall j, k | j in routes && k in routes && j != k :: routes[j].id != routes[k].id
  }

  lemma {:induction false} RowsContain(routes: map<nat, Route>, n: nat)
    ensures forall k | 1 <= k <= n && k in routes :: routes[k] in Rows(routes, n)
    ensures forall r | r in Rows(routes, n) :: exists k :: 1 <= k <= n && k in routes && routes[k] == r
  {
    if n > 0 {
      RowsContain(routes, n - 1);
      var init := Rows(routes, n - 1);
      forall r | r in Rows(routes, n) ensures exists k :: 1 <= k <= n && k in routes && routes[k] == r {
        if r in init {
          var k :| 1 <= k <= n - 1 && k in routes && routes[k] == r;
        } else {
          assert n in routes && routes[n] == r;
        }
      }
    }
  }

  lemma {:induction false} RowsDistinct(routes: map<nat, Route>, n: nat)
    requires UniqueIds(routes)
    ensures Distinct(Rows(routes, n))
  {
    if n > 0 {
      RowsDistinct(routes, n - 1);
      if n in routes {
        AbsentBefore(routes, n);
        var init := Rows(routes, n - 1);
        forall i | 0 <= i < |init| ensures init[i].id != routes[n].id {
        }
      }
    }
  }

  lemma {:induction false} RowsRemove(routes: map<nat, Route>, n: nat, at: nat)
    requires UniqueIds(routes) && 1 <= at && at in routes
    ensures Rows(routes - {at}, n) == if at <= n then Without(Rows(routes, n), routes[at].id) else Rows(routes, n)
  {
    hide Without;
    if n < at {
      RowsFrame(routes - {at}, routes, n);
    } else {
      RowsRemove(routes, n - 1, at);
      var init := Rows(routes, n - 1);
      if n in routes {
        WithoutAppend(init, [routes[n]], routes[at].id);
        WithoutSingle(routes[n], routes[at].id);
      } else {
        assert init + [] == init;
        assert Without(init, routes[at].id) + [] == Without(init, routes[at].id);
      }
      if n == at {
        AbsentBefore(routes, n);
        WithoutAbsent(init, routes[at].id);
      }
    }
  }

  lemma AbsentBefore(routes: map<nat, Route>, n: nat)
    requires n > 0 && n in routes && UniqueIds(routes)
    ensures !Present(Rows(routes, n - 1), routes[n].id)
  {
    RowsContain(routes, n - 1);
    var init := Rows(routes, n - 1);
    forall i | 0 <= i < |init| ensures init[i].id != routes[n].id {
      assert init[i] in init;
    }
  }

  lemma {:induction false} RowsEmpty(n: nat)
    ensures Rows(map[], n) == []
  {
    if n > 0 {
      RowsEmpty(n - 1);
    }
  }

  // The index and the routes mirror each other.
  predicate Indexed(routes: map<nat, Route>, ids: map<Id, nat>, n: nat) {
    && (forall k | k in routes :: 1 <= k <= n && routes[k].id in ids && ids[routes[k].id] == k)
    && (forall id | id in ids :: ids[id] in routes && routes[ids[id]].id == id)
  }

  lemma IndexedUnique(routes: map<nat, Route>, ids: map<Id, nat>, n: nat)
    requires Indexed(routes, ids, n)
    ensures UniqueIds(routes)
  {
  }

  lemma RowsPresent(routes: map<nat, Route>, ids: map<Id, nat>, n: nat, id: Id)
    requires Indexed(routes, ids, n)
    ensures Present(Rows(routes, n), id) <==> id in ids
    ensures id in ids ==> routes[ids[id]] in Rows(routes, n)
  {
    RowsContain(routes, n);
    var rows := Rows(routes, n);
    if id in ids {
      assert routes[ids[id]] in rows;
    }
    if Present(rows, id) {
      var i :| 0 <= i < |rows| && rows[i].id == id;
      assert rows[i] in rows;
    }
  }

  lemma InsertRows(routes: map<nat, Route>, ids: map<Id, nat>, n: nat, route: Route)
    requires Indexed(routes, ids, n) && route.id !in ids
    ensures Indexed(routes[n + 1 := route], ids[route.id := n + 1], n + 1)
    ensures Rows(routes[n + 1 := route], n + 1) == Rows(routes, n) + [route]
  {
    RowsFrame(routes[n + 1 := route], routes, n);
  }

  lemma RemoveRows(routes: map<nat, Route>, ids: map<Id, nat>, n: nat, id: Id)
    requires Indexed(routes, ids, n) && id in ids
    ensures Indexed(routes - {ids[id]}, ids - {id}, n)
    ensures Rows(routes - {ids[id]}, n) == Without(Rows(routes, n), id)
  {
    IndexedUnique(routes, ids, n);
    RowsRemove(routes, n, ids[id]);
  }

  /* ---------- counters ---------- */

  function Count(counts: map<CountKey, nat>, key: CountKey): nat {
    if key in counts then counts[key] else 0
  }

  predicate CountsAre(counts: map<CountKey, nat>, tally: multiset<CountKey>) {
    forall key: CountKey :: Count(counts, key) == tally[key]
  }

  type Analytics = map<Table, map<Cell, nat>>

  const TABLES: set<Table> :=
    {CommunityTable, OriginTable, NextHopTable, LengthTable, ActionTable, ProtocolTable, PortTable}

  // A table holds exactly the tallied values, and never a zero.
  ghost predicate TableIs(rows: map<Cell, nat>, table: Table, tally: multiset<Metric>) {
    && (forall v: Cell :: v in rows <==> (table, v) in tally)
    && (forall v: Cell | v in rows :: rows[v] == tally[(table, v)])
  }

  // The seven tables always exist.
  ghost predicate AnalyticsAre(analytics: Analytics, tally: multiset<Metric>) {
    analytics.Keys == TABLES && forall table | table in analytics :: TableIs(analytics[table], table, tally)
  }

  function Changed<T>(tally: multiset<T>, part: multiset<T>, add: bool): multiset<T> {
    if add then tally + part else tally - part
  }

  // One cell of one table after its count went up or down by one; a count of zero is not kept.
  function Bumped(rows: map<Cell, nat>, value: Cell, n: nat): map<Cell, nat> {
    if n == 0 then rows - {value} else rows[value := n]
  }

  lemma CellBumped(rows: map<Cell, nat>, m: Metric, add: bool, tally: multiset<Metric>)
    requires TableIs(rows, m.0, tally) && (!add ==> m in tally)
    ensures var n := (if m.1 in rows then rows[m.1] else 0) + if add then 1 else -1;
            n >= 0 && TableIs(Bumped(rows, m.1, n), m.0, Changed(tally, multiset{m}, add))
  {
    var after := Changed(tally, multiset{m}, add);
    assert after[m] == tally[m] + if add then 1 else -1;
    assert forall v: Cell | v != m.1 :: after[(m.0, v)] == tally[(m.0, v)];
  }

  lemma OtherTables(rows: map<Cell, nat>, table: Table, m: Metric, add: bool, tally: multiset<Metric>)
    requires TableIs(rows, table, tally) && table != m.0
    ensures TableIs(rows, table, Changed(tally, multiset{m}, add))
  {
    assert forall v: Cell :: Changed(tally, multiset{m}, add)[(table, v)] == tally[(table, v)];
  }

  lemma AnalyticsBumped(analytics: Analytics, m: Metric, add: bool, tally: multiset<Metric>)
    requires AnalyticsAre(analytics, tally) && (!add ==> m in tally)
    ensures m.0 in analytics
    ensures var rows := analytics[m.0];
            var n := (if m.1 in rows then rows[m.1] else 0) + if add then 1 else -1;
            n >= 0 && AnalyticsAre(analytics[m.0 := Bumped(rows, m.1, n)], Changed(tally, multiset{m}, add))
  {
    hide TableIs, Bumped, Changed;
    AllTables(m.0);
    CellBumped(analytics[m.0], m, add, tally);
    forall table | table in analytics && table != m.0
      ensures TableIs(analytics[table], table, Changed(tally, multiset{m}, add))
    {
      OtherTables(analytics[table], table, m, add, tally);
    }
    assert analytics.Keys + {m.0} == analytics.Keys;
  }

  lemma AllTables(table: Table)
    ensures table in TABLES
  {
    match table
    case CommunityTable =>
    case OriginTable =>
    case NextHopTable =>
    case LengthTable =>
    case ActionTable =>
    case ProtocolTable =>
    case PortTable =>
  }

  class Data {
    var routes: map<nat, Route>
    var ids: map<Id, nat>
    var sequence: nat
    var counts: map<CountKey, nat>
    var analytics: Analytics
    var dirty: bool

    ghost function View(): seq<Route>
      reads this
    {
      Rows(routes, sequence)
    }

    ghost predicate Valid()
      reads this
    {
      && Indexed(routes, ids, sequence)
      && CountsAre(counts, KeyTally(View()))
      && AnalyticsAre(analytics, Tally(View()))
    }

    constructor ()
      ensures Valid() && View() == [] && !dirty
    {
      routes, ids, sequence := map[], map[], 0;
      counts := map[];
      analytics := map table | table in TABLES :: map[];
      new;
      EmptyTally();
      dirty := false;
    }

    method Bump(key: CountKey, add: bool, ghost tally: multiset<CountKey>)
      requires CountsAre(counts, tally) && (!add ==> key in tally)
      modifies this`counts
      ensures CountsAre(counts, Changed(tally, multiset{key}, add))
    {
      var n := Count(counts, key);
      if add {
        n := n + 1;
      } else {
        n := n - 1;
      }
      counts := counts[key := n];
    }

    method BumpMetric(m: Metric, add: bool, ghost tally: multiset<Metric>)
      requires AnalyticsAre(analytics, tally) && (!add ==> m in tally)
      modifies this`analytics
      ensures AnalyticsAre(analytics, Changed(tally, multiset{m}, add))
    {
      hide AnalyticsAre;
      var (table, value) := m;
      AnalyticsBumped(analytics, m, add, tally);
      var rows := analytics[table];
      var n := if value in rows then rows[value] else 0;
      if add {
        n := n + 1;
      } else {
        n := n - 1;
      }
      rows := if n == 0 then rows - {value} else rows[value := n];
      analytics := analytics[table := rows];
    }

    // Adds a route to, or takes it from, the counters. Taking is only asked for a counted route.
    method CountRoute(route: Route, add: bool, ghost keys: multiset<CountKey>, ghost tally: multiset<Metric>)
      requires CountsAre(counts, keys) && AnalyticsAre(analytics, tally)
      requires !add ==> Keys(route) <= keys && Bag(route) <= tally
      modifies this`counts, this`analytics
      ensures CountsAre(counts, Changed(keys, Keys(route), add))
      ensures AnalyticsAre(analytics, Changed(tally, Bag(route), add))
    {
      hide MetricsOf, CountsAre, AnalyticsAre;
      var (family, afi) := CountKeys(route);
      Bump(family, add, keys);
      Bump(afi, add, Changed(keys, multiset{family}, add));
      assert Changed(Changed(keys, multiset{family}, add), multiset{afi}, add) == Changed(keys, Keys(route), add);
      var metrics := MetricsOf(route);
      assert Changed(tally, multiset(metrics[..0]), add) == tally;
      for i := 0 to |metrics|
        invariant CountsAre(counts, Changed(keys, Keys(route), add))
        invariant AnalyticsAre(analytics, Changed(tally, multiset(metrics[..i]), add))
      {
        MoveMetric(metrics, i, tally, add);
        BumpMetric(metrics[i], add, Changed(tally, multiset(metrics[..i]), add));
      }
      assert metrics[..|metrics|] == metrics;
    }

    method Insert(id: Id, route: Route)
      requires Valid() && id !in ids && route.id == id
      modifies this
      ensures Valid() && View() == old(View()) + [route] && dirty
      ensures sequence == old(sequence) + 1
    {
      hide Rows, Tally, KeyTally, Bag, Keys, TableIs;
      ghost var view := View();
      CountRoute(route, true, KeyTally(view), Tally(view));
      TallySnoc(view, route);
      InsertRows(routes, ids, sequence, route);
      sequence := sequence + 1;
      ids := ids[id := sequence];
      routes := routes[sequence := route];
      dirty := true;
    }

    method Remove(id: Id) returns (existed: bool)
      requires Valid()
      modifies this
      ensures Valid() && existed == Present(old(View()), id)
      ensures View() == Without(old(View()), id)
      ensures sequence == old(sequence) && id !in ids
      ensures dirty == (old(dirty) || existed)
    {
      hide Rows, Tally, KeyTally, Bag, Keys, TableIs, Without;
      ghost var view := View();
      RowsPresent(routes, ids, sequence, id);
      if id in ids {
        var at := ids[id];
        var route := routes[at];
        TakenOut(routes, ids, sequence, id);
        ids := ids - {id};
        routes := routes - {at};
        CountRoute(route, false, KeyTally(view), Tally(view));
        dirty := true;
        existed := true;
      } else {
        WithoutAbsent(view, id);
        existed := false;
      }
    }

    method ClearAll()
      requires Valid()
      modifies this
      ensures Valid() && View() == [] && ids == map[] && routes == map[] && sequence == old(sequence)
      ensures dirty == (old(dirty) || old(View()) != [])
    {
      hide Rows, Tally, KeyTally, AnalyticsAre;
      ClearedTables(analytics, Tally(View()));
      RowsNonEmpty(routes, ids, sequence);
      if routes != map[] {
        dirty := true;
      }
      routes := map[];
      ids := map[];
      counts := map[];
      analytics := Cleared(analytics);
      EmptyTally();
      RowsEmpty(sequence);
    }

    // The totals shown to users agree with each other and with the table.
    method Stats() returns (total: nat, unicast: nat, flowspec: nat, ipv4: nat, ipv6: nat)
      requires Valid()
      ensures total == |View()| && unicast + flowspec == total && ipv4 + ipv6 == total
      ensures unicast == HowMany(View(), UnicastCount) && flowspec == HowMany(View(), FlowSpecCount)
      ensures ipv4 == HowMany(View(), Ipv4Count) && ipv6 == HowMany(View(), Ipv6Count)
    {
      RowsCount(routes, ids, sequence);
      CountsAddUp(View());
      CountersCount(View(), UnicastCount);
      CountersCount(View(), FlowSpecCount);
      CountersCount(View(), Ipv4Count);
      CountersCount(View(), Ipv6Count);
      return |routes|, Count(counts, UnicastCount), Count(counts, FlowSpecCount), Count(counts, Ipv4Count),
             Count(counts, Ipv6Count);
    }
  }

  // Removing an entry of the index takes one counted route out of the table.
  lemma TakenOut(routes: map<nat, Route>, ids: map<Id, nat>, n: nat, id: Id)
    requires Indexed(routes, ids, n) && id in ids
    ensures Indexed(routes - {ids[id]}, ids - {id}, n)
    ensures Rows(routes - {ids[id]}, n) == Without(Rows(routes, n), id)
    ensures Keys(routes[ids[id]]) <= KeyTally(Rows(routes, n)) && Bag(routes[ids[id]]) <= Tally(Rows(routes, n))
    ensures KeyTally(Without(Rows(routes, n), id)) == KeyTally(Rows(routes, n)) - Keys(routes[ids[id]])
    ensures Tally(Without(Rows(routes, n), id)) == Tally(Rows(routes, n)) - Bag(routes[ids[id]])
  {
    hide Rows, Tally, KeyTally, Bag, Keys, Without;
    RemoveRows(routes, ids, n, id);
    IndexedUnique(routes, ids, n);
    RowsDistinct(routes, n);
    RowsPresent(routes, ids, n, id);
    TallyWithout(Rows(routes, n), routes[ids[id]]);
  }

  lemma MoveMetric(metrics: seq<Metric>, i: nat, tally: multiset<Metric>, add: bool)
    requires i < |metrics| && (!add ==> multiset(metrics) <= tally)
    ensures Changed(Changed(tally, multiset(metrics[..i]), add), multiset{metrics[i]}, add)
         == Changed(tally, multiset(metrics[..i + 1]), add)
    ensures !add ==> metrics[i] in Changed(tally, multiset(metrics[..i]), add)
  {
    assert metrics[..i + 1] == metrics[..i] + [metrics[i]];
    assert metrics == metrics[..i + 1] + metrics[i + 1..];
  }

  function Cleared(analytics: Analytics): Analytics {
    map table | table in analytics :: map[]
  }

  lemma ClearedTables(analytics: Analytics, tally: multiset<Metric>)
    requires AnalyticsAre(analytics, tally)
    ensures AnalyticsAre(Cleared(analytics), multiset{})
  {
  }

  lemma EmptyTally()
    ensures KeyTally([]) == multiset{} && Tally([]) == multiset{}
  {
  }

  lemma RowsCount(routes: map<nat, Route>, ids: map<Id, nat>, n: nat)
    requires Indexed(routes, ids, n)
    ensures |Rows(routes, n)| == |routes|
  {
    RowsSize(routes, n);
    assert routes.Keys == set k | k in routes && 1 <= k <= n;
  }

  lemma {:induction false} RowsSize(routes: map<nat, Route>, n: nat)
    ensures |Rows(routes, n)| == |set k | k in routes && 1 <= k <= n|
  {
    if n > 0 {
      RowsSize(routes, n - 1);
      var small := set k | k in routes && 1 <= k <= n - 1;
      assert (set k | k in routes && 1 <= k <= n) == small + if n in routes then {n} else {};
    } else {
      assert (set k | k in routes && 1 <= k <= 0) == {};
    }
  }

  lemma RowsNonEmpty(routes: map<nat, Route>, ids: map<Id, nat>, n: nat)
    requires Indexed(routes, ids, n)
    ensures Rows(routes, n) == [] <==> routes == map[]
  {
    RowsEmpty(n);
    RowsContain(routes, n);
    if routes != map[] {
      var k :| k in routes;
      assert routes[k] in Rows(routes, n);
    }
  }
}
