/**
 * The announce and withdraw events of one UPDATE as a client sees them. They are emitted in no fixed
 * order, and a client may keep a table of ids by following them.
 */
module EventOrder {
  import opened Base
  import opened UpdateCodec
  import opened Rib
  import opened RibUpdate

  // The ids a client has after following the rows of one event: an announce row adds the route it
  // names, a withdraw row removes it.
  function Followed(ids: set<Id>, announce: bool, rows: seq<EventRow>): set<Id> {
    if rows == [] then ids
    else
      var before, named := Followed(ids, announce, rows[..|rows| - 1]), rows[|rows| - 1].routeId;
      if named.None? then before else if announce then before + {named.value} else before - {named.value}
  }

  function TableIds(rows: seq<Route>): set<Id> {
    set r | r in rows :: r.id
  }

  // Whether some row names the route of that id.
  predicate Names(rows: seq<EventRow>, id: Id) {
    exists i :: 0 <= i < |rows| && rows[i].routeId == Some(id)
  }

  lemma NamesLast(rows: seq<EventRow>, id: Id)
    requires rows != []
    ensures Names(rows, id) <==> Names(rows[..|rows| - 1], id) || rows[|rows| - 1].routeId == Some(id)
  {
    var init := rows[..|rows| - 1];
    if Names(init, id) {
      var i :| 0 <= i < |init| && init[i].routeId == Some(id);
      assert rows[i].routeId == Some(id);
    }
    if Names(rows, id) && rows[|rows| - 1].routeId != Some(id) {
      var i :| 0 <= i < |rows| && rows[i].routeId == Some(id);
      assert init[i].routeId == Some(id);
    }
  }

  lemma {:induction false} FollowedIs(ids: set<Id>, announce: bool, rows: seq<EventRow>, id: Id)
    ensures id in Followed(ids, announce, rows)
       <==> if announce then id in ids || Names(rows, id) else id in ids && !Names(rows, id)
  {
    hide Names;
    if rows == [] {
      NothingNamed(id);
    } else {
      FollowedIs(ids, announce, rows[..|rows| - 1], id);
      NamesLast(rows, id);
    }
  }

  lemma NothingNamed(id: Id)
    ensures !Names([], id)
  {
  }

  lemma TableIdsAre(rows: seq<Route>, id: Id)
    ensures id in TableIds(rows) <==> Present(rows, id)
  {
    PresentIs(rows, id);
  }

  // An announce event names every route it mentions, a withdraw event those the table had.
  lemma {:induction false} RowsName(rows: seq<Route>, ops: seq<Op>, announce: bool, id: Id)
    requires AllAre(ops, announce)
    ensures Names(EventRows(rows, ops), id) <==> Mentioned(ops, id) && (announce || Present(rows, id))
  {
    hide Names, Mentioned, Present, Apply;
    if ops == [] {
      NothingNamed(id);
      NoMention(id);
    } else {
      var n := |ops| - 1;
      var events := EventRows(rows, ops);
      RowsName(rows, ops[..n], announce, id);
      assert events[..n] == EventRows(rows, ops[..n]);
      NamesLast(events, id);
      MentionedLast(ops, id);
      if !announce {
        RemovalsSpare(rows, ops[..n], id);
      }
    }
  }

  lemma {:induction false} AnnouncedTable(rows: seq<Route>, ops: seq<Op>, id: Id)
    requires AllAre(ops, true)
    ensures Present(Apply(rows, ops), id) <==> Present(rows, id) || Mentioned(ops, id)
  {
    hide Present, Mentioned, Step;
    if ops == [] {
      NoMention(id);
    } else {
      var n := |ops| - 1;
      AnnouncedTable(rows, ops[..n], id);
      StepPresent(Apply(rows, ops[..n]), ops[n]);
      MentionedLast(ops, id);
    }
  }

  // What a client that had the table before an UPDATE has after its two events.
  function AfterEvents(rows: seq<Route>, up: seq<Op>, down: seq<Op>, withdrawFirst: bool): set<Id> {
    var announced, withdrawn := EventRows(rows, up), EventRows(Apply(rows, up), down);
    if withdrawFirst then Followed(Followed(TableIds(rows), false, withdrawn), true, announced)
    else Followed(Followed(TableIds(rows), true, announced), false, withdrawn)
  }

  lemma AfterEventsIs(rows: seq<Route>, up: seq<Op>, down: seq<Op>, withdrawFirst: bool, id: Id)
    requires AllAre(up, true) && AllAre(down, false)
    ensures id in AfterEvents(rows, up, down, withdrawFirst)
       <==> if withdrawFirst then Mentioned(up, id) || (Present(rows, id) && !Mentioned(down, id))
            else (Mentioned(up, id) || Present(rows, id)) && !Mentioned(down, id)
  {
    hide Followed, EventRows, Apply, Names, Mentioned, Present, TableIds;
    var announced, withdrawn := EventRows(rows, up), EventRows(Apply(rows, up), down);
    TableIdsAre(rows, id);
    RowsName(rows, up, true, id);
    RowsName(Apply(rows, up), down, false, id);
    AnnouncedTable(rows, up, id);
    FollowedIs(TableIds(rows), false, withdrawn, id);
    FollowedIs(TableIds(rows), true, announced, id);
    FollowedIs(Followed(TableIds(rows), false, withdrawn), true, announced, id);
    FollowedIs(Followed(TableIds(rows), true, announced), false, withdrawn, id);
  }

  lemma TableAfterIs(rows: seq<Route>, up: seq<Op>, down: seq<Op>, id: Id)
    requires AllAre(up, true) && AllAre(down, false)
    ensures id in TableIds(Apply(rows, up + down))
       <==> (Mentioned(up, id) || Present(rows, id)) && !Mentioned(down, id)
  {
    hide Apply, Mentioned, Present, TableIds;
    TableIdsAre(Apply(rows, up + down), id);
    ApplyAppend(rows, up, down);
    RemovalsSpare(Apply(rows, up), down, id);
    AnnouncedTable(rows, up, id);
  }

  // No route is both announced and withdrawn.
  ghost predicate Separate(up: seq<Op>, down: seq<Op>) {
    forall id: Id :: !(Mentioned(up, id) && Mentioned(down, id))
  }

  // A client that follows the announce event first always ends with the ids of the table. One that
  // gets the withdraw event first does so if and only if the message announces nothing it withdraws.
  lemma EventsInEitherOrder(rows: seq<Route>, u: Update, peer: Bytes, digest: Identity -> Id)
    ensures var up, down := Announces(u, peer, digest), Withdraws(u, peer, digest);
            var table := TableIds(Apply(rows, OpsOf(u, peer, digest)));
            && AfterEvents(rows, up, down, false) == table
            && (AfterEvents(rows, up, down, true) == table <==> Separate(up, down))
  {
    hide KindOps, AfterEvents, TableIds, Apply, Mentioned, Present;
    var up, down := Announces(u, peer, digest), Withdraws(u, peer, digest);
    KindOpsAre(ContextOf(u, peer, digest), true, u.announce, 4);
    KindOpsAre(ContextOf(u, peer, digest), false, u.withdraw, 4);
    forall id: Id
      ensures id in AfterEvents(rows, up, down, false) <==> id in TableIds(Apply(rows, up + down))
      ensures id in AfterEvents(rows, up, down, true)
         <==> Mentioned(up, id) || (Present(rows, id) && !Mentioned(down, id))
      ensures id in TableIds(Apply(rows, up + down))
         <==> (Mentioned(up, id) || Present(rows, id)) && !Mentioned(down, id)
    {
      AfterEventsIs(rows, up, down, false, id);
      AfterEventsIs(rows, up, down, true, id);
      TableAfterIs(rows, up, down, id);
    }
  }

  // After the message with one prefix in both fields a client that gets the withdraw event first is
  // left with a route the table does not have.
  lemma ClientLeftWithRoute(rows: seq<Route>, asnLen: nat, peer: Bytes, digest: Identity -> Id)
    requires asnLen == 2 || asnLen == 4
    ensures ParseUpdate(BOTH_FIELDS, asnLen).Ok?
    ensures var u := ParseUpdate(BOTH_FIELDS, asnLen).value;
            var up, down := Announces(u, peer, digest), Withdraws(u, peer, digest);
            var id := digest(UnicastIdentity(Ipv4Unicast, peer, DOCUMENTATION));
            && id in AfterEvents(rows, up, down, true)
            && id !in TableIds(Apply(rows, OpsOf(u, peer, digest)))
  {
    hide ParseUpdate, KindOps, AfterEvents, TableIds, Apply, Present;
    BothFieldsAbsent(rows, asnLen, peer, digest);
    var u := ParseUpdate(BOTH_FIELDS, asnLen).value;
    var up, down := Announces(u, peer, digest), Withdraws(u, peer, digest);
    var id := digest(UnicastIdentity(Ipv4Unicast, peer, DOCUMENTATION));
    KindOpsAre(ContextOf(u, peer, digest), true, u.announce, 4);
    KindOpsAre(ContextOf(u, peer, digest), false, u.withdraw, 4);
    assert up[0].route.id == id;
    AfterEventsIs(rows, up, down, true, id);
    TableIdsAre(Apply(rows, OpsOf(u, peer, digest)), id);
  }
}
