/**
 * The session task and the sharing of route attributes together: every run of the session, with
 * collections and copies of the table at any moment, is a run of the sharing system in which the
 * table is cleared only between updates.
 */
module Program {
  import opened Base
  import opened UpdateCodec
  import opened Rib
  import opened RibUpdate
  import opened Session
  import L = Lifecycle
  import I = Interning

  // A step of the session task, a collection by the maintenance worker, or a reader taking or
  // dropping a copy of the table.
  datatype Event = Task(m: L.Move) | Reclaim | TakeCopy(name: nat) | DropCopy(name: nat)

  function TaskMoves(events: seq<Event>): seq<L.Move> {
    if events == [] then []
    else
      var last := events[|events| - 1];
      TaskMoves(events[..|events| - 1]) + if last.Task? then [last.m] else []
  }

  // The text a route shares its group's name and its peer's address by.
  function LabelContent(group: Label): I.Content {
    I.TextContent(I.LabelText(group))
  }

  function SharedContents(s: L.Section): seq<I.Content>
    requires s.Share?
  {
    [I.PathContent(s.asPath), I.CommunityContent(s.communities), I.TextContent(I.AddressText(s.peer))]
  }

  function SectionMove(s: L.Section): I.Move {
    match s
    case Share(_, _, _) => I.Begin(0, SharedContents(s))
    case Enter(group) => I.Group(0, I.LabelText(group))
    case Do(op) => if op.announce then I.Insert(0, op.route.id) else I.Remove(op.route.id)
    case Leave => I.Leave(0)
    case Release => I.Finish(0)
  }

  // The part of a session step that the sharing system sees; every step that clears the data
  // clears the pool with it.
  function PoolMoves(w: L.World, m: L.Move): seq<I.Move> {
    match m
    case Perform => if w.phase.Performing? && w.phase.work != [] then [SectionMove(w.phase.work[0])] else []
    case Launch(config) => if w.phase.Absent? && ValidConfig(config) then [I.Clear] else []
    case Reset => if w.phase.Absent? then [I.Clear] else []
    case Wipe => if w.phase.Closing? then [I.Clear] else []
    case Finish => if w.phase.Ending? then [I.Clear] else []
    case _ => []
  }

  function EventMoves(w: L.World, e: Event): seq<I.Move> {
    match e
    case Task(m) => PoolMoves(w, m)
    case Reclaim => [I.Collect]
    case TakeCopy(name) => [I.TakeCopy(name)]
    case DropCopy(name) => [I.DropCopy(name)]
  }

  function Projected(events: seq<Event>, digest: Identity -> Id): seq<I.Move> {
    if events == [] then []
    else
      var init := events[..|events| - 1];
      Projected(init, digest) + EventMoves(L.Run(TaskMoves(init), digest), events[|events| - 1])
  }

  /* ---------- how the two sides match ---------- */

  function RouteContents(r: Route): seq<I.Content> {
    [I.PathContent(r.asPath), I.CommunityContent(r.communities), I.TextContent(I.AddressText(r.peer)),
     LabelContent(r.group)]
  }

  // An update's remaining sections follow from what it holds: it shares first, enters a group
  // before routes of that group, leaves it after them, and lets go last.
  predicate Ready(work: seq<L.Section>, held: Option<I.PlainWork>)
    decreases |work|
  {
    if work == [] then held.None?
    else
      match work[0]
      case Share(_, _, _) => held.None? && Ready(work[1..], Some(I.PlainWork(SharedContents(work[0]), [])))
      case Enter(group) => held.Some? && Ready(work[1..], Some(held.value.(group := [LabelContent(group)])))
      case Do(op) => held.Some? && Carries(held.value, op.route) && Ready(work[1..], held)
      case Leave => held.Some? && Ready(work[1..], Some(held.value.(group := [])))
      case Release => held.Some? && Ready(work[1..], None)
  }

  predicate Carries(held: I.PlainWork, r: Route) {
    held.group != [] && RouteContents(r) == held.shared + held.group
  }

  function HeldBy(works: map<nat, I.PlainWork>): Option<I.PlainWork> {
    if 0 in works then Some(works[0]) else None
  }

  predicate SameTable(rows: seq<Route>, rib: map<Id, seq<I.Content>>) {
    && (forall r | r in rows :: r.id in rib && rib[r.id] == RouteContents(r))
    && (forall id | id in rib :: Present(rows, id))
  }

  // The plain table has the routes' contents, and an update is under way on both sides or on
  // neither.
  predicate Matches(w: L.World, p: I.Plain) {
    && SameTable(w.view.table, p.rib)
    && p.works.Keys <= {0}
    && (if w.phase.Performing? then Ready(w.phase.work, HeldBy(p.works)) else p.works == map[])
  }

  /* ---------- an UPDATE's sections are ready ---------- */

  predicate SameShared(held: Option<I.PlainWork>, shared: seq<I.Content>) {
    held.Some? && held.value.shared == shared
  }

  function ContextContents(c: Context): seq<I.Content> {
    [I.PathContent(c.asPath), I.CommunityContent(c.communities), I.TextContent(I.AddressText(c.peer))]
  }

  lemma {:induction false} DosReady(ops: seq<Op>, rest: seq<L.Section>, held: I.PlainWork)
    requires forall i | 0 <= i < |ops| :: Carries(held, ops[i].route)
    requires Ready(rest, Some(held))
    ensures Ready(L.Dos(ops) + rest, Some(held))
    decreases |ops|
  {
    hide Carries;
    var work := L.Dos(ops) + rest;
    if ops == [] {
      assert work == rest;
    } else {
      assert work[0] == L.Do(ops[0]);
      assert work[1..] == L.Dos(ops[1..]) + rest;
      DosReady(ops[1..], rest, held);
    }
  }

  lemma GroupCarried(c: Context, announce: bool, group: Label, nlri: Nlri, held: I.PlainWork)
    requires held == I.PlainWork(ContextContents(c), [LabelContent(group)])
    ensures forall i | 0 <= i < |GroupOps(c, announce, group, nlri)| ::
              Carries(held, GroupOps(c, announce, group, nlri)[i].route)
  {
    var ops := GroupOps(c, announce, group, nlri);
    forall i | 0 <= i < |ops| ensures Carries(held, ops[i].route) {
      GroupOpAt(c, announce, group, nlri, i);
      EntryCarried(c, group, nlri, i, held);
    }
  }

  lemma EntryCarried(c: Context, group: Label, nlri: Nlri, i: nat, held: I.PlainWork)
    requires i < NlriSize(nlri) && held == I.PlainWork(ContextContents(c), [LabelContent(group)])
    ensures Carries(held, EntryAt(c, group, nlri, i))
  {
    var r := EntryAt(c, group, nlri, i);
    assert r.group == group && r.peer == c.peer && r.asPath == c.asPath && r.communities == c.communities;
    assert RouteContents(r) == ContextContents(c) + [LabelContent(group)];
  }

  // Whatever group an update has come to, the groups of one kind can follow.
  lemma {:induction false} KindReady(c: Context, announce: bool, groups: map<Label, Nlri>, n: nat,
                                     rest: seq<L.Section>, held: Option<I.PlainWork>)
    requires n <= 4 && SameShared(held, ContextContents(c))
    requires forall later | SameShared(later, ContextContents(c)) :: Ready(rest, later)
    ensures Ready(L.KindSections(c, announce, groups, n) + rest, held)
    decreases n
  {
    hide Ready, GroupOps, ContextContents, Carries;
    if n == 0 {
      assert L.KindSections(c, announce, groups, 0) + rest == rest;
    } else {
      var before := L.KindSections(c, announce, groups, n - 1);
      var group := LABELS[n - 1];
      if group in groups {
        var ops := GroupOps(c, announce, group, groups[group]);
        var tail := [L.Enter(group)] + L.Dos(ops) + [L.Leave] + rest;
        forall later | SameShared(later, ContextContents(c)) ensures Ready(tail, later) {
          EnterReady(c, announce, group, groups[group], rest, later.value);
        }
        KindReady(c, announce, groups, n - 1, tail, held);
        Rebracket(before, [L.Enter(group)] + L.Dos(ops) + [L.Leave], rest);
      } else {
        assert L.KindSections(c, announce, groups, n) == before + [] == before;
        KindReady(c, announce, groups, n - 1, rest, held);
      }
    }
  }

  lemma Rebracket<T>(a: seq<T>, b: seq<T>, c: seq<T>)
    ensures a + b + c == a + (b + c)
  {
  }

  lemma EnterReady(c: Context, announce: bool, group: Label, nlri: Nlri, rest: seq<L.Section>, held: I.PlainWork)
    requires held.shared == ContextContents(c)
    requires forall later | SameShared(later, ContextContents(c)) :: Ready(rest, later)
    ensures Ready([L.Enter(group)] + L.Dos(GroupOps(c, announce, group, nlri)) + [L.Leave] + rest, Some(held))
  {
    hide GroupOps, ContextContents, Carries;
    var ops := GroupOps(c, announce, group, nlri);
    var entered := held.(group := [LabelContent(group)]);
    GroupCarried(c, announce, group, nlri, entered);
    assert SameShared(Some(entered.(group := [])), ContextContents(c));
    LeaveReady(rest, entered);
    DosReady(ops, [L.Leave] + rest, entered);
    var work := [L.Enter(group)] + L.Dos(ops) + [L.Leave] + rest;
    assert work[0] == L.Enter(group) && work[1..] == L.Dos(ops) + ([L.Leave] + rest);
  }

  lemma LeaveReady(rest: seq<L.Section>, held: I.PlainWork)
    requires Ready(rest, Some(held.(group := [])))
    ensures Ready([L.Leave] + rest, Some(held))
  {
    assert ([L.Leave] + rest)[1..] == rest;
  }

  lemma ReleaseReady(held: I.PlainWork)
    ensures Ready([L.Release], Some(held))
  {
    assert [L.Release][1..] == [];
  }

  lemma SectionsReady(u: Update, peer: Bytes, digest: Identity -> Id)
    ensures Ready(L.SectionsOf(u, peer, digest), None)
  {
    hide L.KindSections;
    var c := ContextOf(u, peer, digest);
    var share := L.Share(c.asPath, c.communities, peer);
    var up, down := L.KindSections(c, true, u.announce, 4), L.KindSections(c, false, u.withdraw, 4);
    var held := Some(I.PlainWork(SharedContents(share), []));
    KindsReady(c, u, held);
    var work := L.SectionsOf(u, peer, digest);
    assert work[0] == share && work[1..] == up + (down + [L.Release]);
  }

  lemma KindsReady(c: Context, u: Update, held: Option<I.PlainWork>)
    requires SameShared(held, ContextContents(c))
    ensures Ready(L.KindSections(c, true, u.announce, 4)
                  + (L.KindSections(c, false, u.withdraw, 4) + [L.Release]), held)
  {
    hide Ready, L.KindSections, ContextContents;
    forall later | SameShared(later, ContextContents(c)) ensures Ready([L.Release], later) {
      ReleaseReady(later.value);
    }
    var tail := L.KindSections(c, false, u.withdraw, 4) + [L.Release];
    forall later | SameShared(later, ContextContents(c)) ensures Ready(tail, later) {
      KindReady(c, false, u.withdraw, 4, [L.Release], later);
    }
    KindReady(c, true, u.announce, 4, tail, held);
  }

  /* ---------- every step keeps them matched ---------- */

  lemma WithoutIs(rows: seq<Route>, id: Id)
    ensures forall r :: r in Without(rows, id) <==> r in rows && r.id != id
    decreases |rows|
  {
    if rows != [] {
      WithoutIs(rows[1..], id);
      assert forall r :: r in rows <==> r == rows[0] || r in rows[1..];
    }
  }

  lemma OpMatches(rows: seq<Route>, rib: map<Id, seq<I.Content>>, op: Op)
    requires SameTable(rows, rib)
    ensures SameTable(Step(rows, op),
                      if op.announce then rib[op.route.id := RouteContents(op.route)] else rib - {op.route.id})
  {
    hide Without, RouteContents, Present;
    var kept := Without(rows, op.route.id);
    WithoutIs(rows, op.route.id);
    StepPresent(rows, op);
    if op.announce {
      assert forall r :: r in kept + [op.route] <==> r in kept || r == op.route;
    } else {
      assert kept + [] == kept;
    }
  }

  lemma SectionMatches(w: L.World, p: I.Plain, digest: Identity -> Id)
    requires Matches(w, p) && w.phase.Performing? && w.phase.work != []
    ensures Matches(L.PerformNext(w, digest), I.PlainMoved(p, SectionMove(w.phase.work[0])))
  {
    hide SameTable, Step, RouteContents;
    var s := w.phase.work[0];
    if s.Do? {
      OpMatches(w.view.table, p.rib, s.op);
    }
  }

  lemma EffectMatches(w: L.World, p: I.Plain, digest: Identity -> Id)
    requires Matches(w, p) && w.phase.Performing? && w.phase.work == []
    ensures Matches(L.PerformNext(w, digest), p)
  {
    hide SameTable, L.SectionsOf;
    assert p.works == map[];
    if w.phase.effects != [] && w.phase.effects[0].ApplyUpdate? {
      SectionsReady(w.phase.effects[0].update, w.config.peerIp, digest);
    }
  }

  function AfterMoves(p: I.Plain, moves: seq<I.Move>): I.Plain
    requires |moves| <= 1
  {
    if moves == [] then p else I.PlainMoved(p, moves[0])
  }

  lemma ClearedMatches(w: L.World, p: I.Plain, v: L.World)
    requires Matches(w, p) && !w.phase.Performing? && !v.phase.Performing? && v.view.table == []
    ensures p.works == map[] && Matches(v, I.PlainMoved(p, I.Clear))
  {
  }

  lemma TaskMatches(w: L.World, p: I.Plain, m: L.Move, digest: Identity -> Id)
    requires Matches(w, p)
    ensures Matches(L.Moved(w, m, digest), AfterMoves(p, PoolMoves(w, m)))
    ensures I.Clear in PoolMoves(w, m) ==> p.works == map[]
  {
    hide SameTable, L.PerformNext, OnFrame, React, Enabled, Opened;
    match m
    case Perform =>
      if w.phase.Performing? {
        if w.phase.work != [] {
          SectionMatches(w, p, digest);
        } else {
          EffectMatches(w, p, digest);
        }
      }
    case Launch(config) =>
      if w.phase.Absent? && ValidConfig(config) {
        ClearedMatches(w, p, L.Moved(w, m, digest));
      }
    case Reset =>
      if w.phase.Absent? {
        ClearedMatches(w, p, L.Moved(w, m, digest));
      }
    case Wipe =>
      if w.phase.Closing? {
        ClearedMatches(w, p, L.Moved(w, m, digest));
      }
    case Finish =>
      if w.phase.Ending? {
        ClearedMatches(w, p, L.Moved(w, m, digest));
      }
    case _ =>
  }

  lemma EventMatches(w: L.World, p: I.Plain, e: Event, digest: Identity -> Id)
    requires Matches(w, p)
    ensures Matches(if e.Task? then L.Moved(w, e.m, digest) else w, AfterMoves(p, EventMoves(w, e)))
    ensures I.Clear in EventMoves(w, e) ==> p.works == map[]
  {
    hide SameTable, L.Moved, PoolMoves, Ready;
    if e.Task? {
      TaskMatches(w, p, e.m, digest);
    }
  }

  /* ---------- whole runs ---------- */

  lemma PlainOneMore(moves: seq<I.Move>, more: seq<I.Move>)
    requires |more| <= 1
    ensures I.PlainRun(moves + more) == AfterMoves(I.PlainRun(moves), more)
  {
    if more == [] {
      assert moves + more == moves;
    } else {
      assert (moves + more)[..|moves|] == moves;
    }
  }

  lemma IdleOneMore(moves: seq<I.Move>, more: seq<I.Move>)
    requires |more| <= 1 && I.ClearedWhenIdle(moves)
    requires I.Clear in more ==> I.PlainRun(moves).works == map[]
    ensures I.ClearedWhenIdle(moves + more)
  {
    hide I.Run, I.PlainRun, I.PlainMoved, I.Moved;
    var all := moves + more;
    if more == [] {
      assert all == moves;
    } else {
      forall i | 0 <= i < |all| && all[i].Clear? ensures I.Run(all[..i]).works == map[] {
        if i < |moves| {
          assert all[..i] == moves[..i] && all[i] == moves[i];
        } else {
          assert all[..i] == moves && more[0] in more;
          IdleBothSides(moves);
        }
      }
    }
  }

  lemma IdleBothSides(moves: seq<I.Move>)
    requires I.PlainRun(moves).works == map[]
    ensures I.Run(moves).works == map[]
  {
    hide I.Run, I.PlainRun;
    I.SharingIsInvisible(moves);
    var s := I.Run(moves);
    assert forall w | w in s.works :: w in I.View(s).works;
  }

  lemma OneAtMost(w: L.World, e: Event)
    ensures |EventMoves(w, e)| <= 1
  {
  }

  // Every run of the program clears the table only between updates, and the sharing system's table
  // and the session's stay the same.
  lemma {:induction false} ProgramMatches(events: seq<Event>, digest: Identity -> Id)
    ensures I.ClearedWhenIdle(Projected(events, digest))
    ensures Matches(L.Run(TaskMoves(events), digest), I.PlainRun(Projected(events, digest)))
  {
    hide Matches, I.ClearedWhenIdle, L.Moved, EventMoves, AfterMoves, I.PlainMoved;
    if events == [] {
      FirstMatches(digest);
    } else {
      var init, e := events[..|events| - 1], events[|events| - 1];
      ProgramMatches(init, digest);
      var w, moves := L.Run(TaskMoves(init), digest), Projected(init, digest);
      OneAtMost(w, e);
      EventMatches(w, I.PlainRun(moves), e, digest);
      PlainOneMore(moves, EventMoves(w, e));
      IdleOneMore(moves, EventMoves(w, e));
      TaskRun(events, digest);
    }
  }

  lemma TaskRun(events: seq<Event>, digest: Identity -> Id)
    requires events != []
    ensures var w, e := L.Run(TaskMoves(events[..|events| - 1]), digest), events[|events| - 1];
            L.Run(TaskMoves(events), digest) == if e.Task? then L.Moved(w, e.m, digest) else w
  {
    hide L.Moved;
    var before, e := TaskMoves(events[..|events| - 1]), events[|events| - 1];
    if e.Task? {
      assert (before + [e.m])[..|before|] == before;
    } else {
      assert before + [] == before;
    }
  }

  lemma FirstMatches(digest: Identity -> Id)
    ensures Matches(L.Run([], digest), I.PlainRun([])) && I.ClearedWhenIdle([])
  {
  }

  /* ---------- main results ---------- */

  // At every moment of every run, each stored route's references read exactly its own attributes,
  // nothing else is stored, and any two references of stored routes are the same object if and
  // only if they read the same.
  lemma ProgramShares(events: seq<Event>, digest: Identity -> Id)
    ensures var rows, s := L.Run(TaskMoves(events), digest).view.table, I.Run(Projected(events, digest));
            && (forall r | r in rows :: r.id in s.rib && I.Contents(s.heap, s.rib[r.id]) == RouteContents(r))
            && (forall id | id in s.rib :: Present(rows, id))
            && (forall q, r, i, j | q in rows && r in rows && 0 <= i < 4 && 0 <= j < 4 ::
                  |s.rib[q.id]| == 4 == |s.rib[r.id]|
                  && (RouteContents(q)[i] == RouteContents(r)[j] <==> s.rib[q.id][i] == s.rib[r.id][j]))
  {
    hide L.Run, I.Run, I.PlainRun, Projected, I.ClearedWhenIdle, Ready, Present;
    ProgramMatches(events, digest);
    var moves := Projected(events, digest);
    I.SharingIsInvisible(moves);
    var rows, s := L.Run(TaskMoves(events), digest).view.table, I.Run(moves);
    TableRead(rows, s);
    forall q, r, i, j | q in rows && r in rows && 0 <= i < 4 && 0 <= j < 4
      ensures |s.rib[q.id]| == 4 == |s.rib[r.id]|
      ensures RouteContents(q)[i] == RouteContents(r)[j] <==> s.rib[q.id][i] == s.rib[r.id][j]
    {
      I.EqualContentIsShared(moves, q.id, r.id, i, j);
    }
  }

  lemma TableRead(rows: seq<Route>, s: I.State)
    requires SameTable(rows, I.View(s).rib)
    ensures forall r | r in rows ::
              r.id in s.rib && I.Contents(s.heap, s.rib[r.id]) == RouteContents(r) && |s.rib[r.id]| == 4
    ensures forall id | id in s.rib :: Present(rows, id)
  {
    hide RouteContents, I.Contents;
    forall r | r in rows
      ensures r.id in s.rib && I.Contents(s.heap, s.rib[r.id]) == RouteContents(r) && |s.rib[r.id]| == 4
    {
      assert r.id in I.View(s).rib;
      FourContents(r);
      assert |I.Contents(s.heap, s.rib[r.id])| == |s.rib[r.id]|;
    }
    forall id | id in s.rib ensures Present(rows, id) {
      assert id in I.View(s).rib;
    }
  }

  lemma FourContents(r: Route)
    ensures |RouteContents(r)| == 4
  {
  }

  // In every run, a collection leaves in the pool exactly what a stored route, an update under way,
  // or a copy taken since the last clear holds.
  lemma ProgramCollects(events: seq<Event>, digest: Identity -> Id, r: I.Ref)
    ensures I.Shared(I.Run(Projected(events + [Reclaim], digest)), r)
       <==> I.HeldNow(I.Run(Projected(events, digest)), r)
  {
    hide L.Run, I.Run, I.Moved, I.PlainRun, Projected, I.ClearedWhenIdle, Matches;
    ProgramMatches(events, digest);
    I.CollectedExactly(Projected(events, digest), r);
    ReclaimCollects(events, digest);
  }

  lemma ReclaimCollects(events: seq<Event>, digest: Identity -> Id)
    ensures I.Run(Projected(events + [Reclaim], digest)) == I.Moved(I.Run(Projected(events, digest)), I.Collect)
  {
    hide I.Moved, L.Run;
    assert (events + [Reclaim])[..|events|] == events;
    var moves := Projected(events, digest);
    assert (moves + [I.Collect])[..|moves|] == moves;
  }

  // The copies after one event, given the table at that moment.
  function CopiesAfter<T>(copies: map<nat, T>, table: T, e: Event): map<nat, T> {
    match e
    case TakeCopy(name) => copies[name := table]
    case DropCopy(name) => copies - {name}
    case _ => copies
  }

  // The tables as they were when the copies that readers still have were taken.
  function CopiesTaken(events: seq<Event>, digest: Identity -> Id): map<nat, seq<Route>> {
    if events == [] then map[]
    else
      var init := events[..|events| - 1];
      CopiesAfter(CopiesTaken(init, digest), L.Run(TaskMoves(init), digest).view.table, events[|events| - 1])
  }

  predicate CopiesMatch(copies: map<nat, seq<Route>>, plain: map<nat, map<Id, seq<I.Content>>>) {
    copies.Keys == plain.Keys && forall name | name in copies :: SameTable(copies[name], plain[name])
  }

  lemma {:induction false} CopiesKept(events: seq<Event>, digest: Identity -> Id)
    ensures CopiesMatch(CopiesTaken(events, digest), I.PlainRun(Projected(events, digest)).copies)
  {
    hide SameTable, L.Run, EventMoves, I.PlainRun, AfterMoves, CopiesMatch, CopiesAfter;
    if events == [] {
      NoCopies();
    } else {
      var init, e := events[..|events| - 1], events[|events| - 1];
      CopiesKept(init, digest);
      ProgramMatches(init, digest);
      var w, moves := L.Run(TaskMoves(init), digest), Projected(init, digest);
      var p := I.PlainRun(moves);
      OneAtMost(w, e);
      PlainOneMore(moves, EventMoves(w, e));
      EventCopies(p, w, e);
      MatchAfter(CopiesTaken(init, digest), w.view.table, p.copies, p.rib, e);
    }
  }

  lemma EventCopies(p: I.Plain, w: L.World, e: Event)
    ensures |EventMoves(w, e)| <= 1 && AfterMoves(p, EventMoves(w, e)).copies == CopiesAfter(p.copies, p.rib, e)
  {
    hide PoolMoves;
    if e.Task? {
      TaskLeavesCopies(p, w, e.m);
    }
  }

  lemma MatchAfter(copies: map<nat, seq<Route>>, rows: seq<Route>, plain: map<nat, map<Id, seq<I.Content>>>,
                   rib: map<Id, seq<I.Content>>, e: Event)
    requires CopiesMatch(copies, plain) && SameTable(rows, rib)
    ensures CopiesMatch(CopiesAfter(copies, rows, e), CopiesAfter(plain, rib, e))
  {
    hide SameTable;
  }

  lemma NoCopies()
    ensures CopiesMatch(map[], I.PlainRun([]).copies)
  {
  }

  lemma TaskLeavesCopies(p: I.Plain, w: L.World, m: L.Move)
    ensures |PoolMoves(w, m)| <= 1 && AfterMoves(p, PoolMoves(w, m)).copies == p.copies
  {
  }

  // A reader's copy goes on reading as the table did when it was taken, whatever is announced,
  // withdrawn, cleared and collected meanwhile; only its reader drops it.
  lemma ProgramCopies(events: seq<Event>, digest: Identity -> Id)
    ensures CopiesMatch(CopiesTaken(events, digest), I.View(I.Run(Projected(events, digest))).copies)
  {
    hide L.Run, I.Run, I.PlainRun, Projected, I.ClearedWhenIdle, Matches, CopiesMatch;
    CopiesKept(events, digest);
    I.SharingIsInvisible(Projected(events, digest));
  }
}
