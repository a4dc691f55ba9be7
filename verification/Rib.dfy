/**
 * The routing table seen simply: a list of routes in the order of their latest announcement,
 * changed by announcing and withdrawing single routes.
 */
module Rib {
  import opened Base
  import opened Prefixes
  import opened FlowSpec
  import opened Attributes
  import opened UpdateCodec

  type Id = string

  // A stored route. Unicast routes are told apart by prefix, FlowSpec routes by their whole rule.
  datatype Route =
    | UnicastEntry(id: Id, group: Label, peer: Bytes, asPath: seq<nat>, communities: seq<Community>,
                   prefix: Prefix, nextHop: Option<Hop>)
    | FlowEntry(id: Id, group: Label, peer: Bytes, asPath: seq<nat>, communities: seq<Community>,
                rule: Rule, actions: seq<Action>)

  // What the digest behind a route's id is taken of.
  datatype Identity = UnicastIdentity(group: Label, peer: Bytes, prefix: Prefix)
                    | FlowIdentity(group: Label, peer: Bytes, rule: Rule)

  function IdentityOf(r: Route): Identity {
    match r
    case UnicastEntry(_, group, peer, _, _, prefix, _) => UnicastIdentity(group, peer, prefix)
    case FlowEntry(_, group, peer, _, _, rule, _) => FlowIdentity(group, peer, rule)
  }

  // Different identities get different ids.
  ghost predicate Injective(digest: Identity -> Id) {
    forall a, b :: digest(a) == digest(b) ==> a == b
  }

  datatype Op = Op(announce: bool, route: Route)

  /* ---------- the table as a list ---------- */

  predicate Present(rows: seq<Route>, id: Id) {
    exists i :: 0 <= i < |rows| && rows[i].id == id
  }

  function Without(rows: seq<Route>, id: Id): (r: seq<Route>)
    ensures |r| <= |rows|
  {
    if rows == [] then []
    else (if rows[0].id == id then [] else [rows[0]]) + Without(rows[1..], id)
  }

  // One announced or withdrawn route: its old entry goes, and an announced one is added last.
  function Step(rows: seq<Route>, op: Op): seq<Route> {
    Without(rows, op.route.id) + if op.announce then [op.route] else []
  }

  function Apply(rows: seq<Route>, ops: seq<Op>): seq<Route> {
    if ops == [] then rows else Step(Apply(rows, ops[..|ops| - 1]), ops[|ops| - 1])
  }

  lemma {:induction false} ApplyAppend(rows: seq<Route>, a: seq<Op>, b: seq<Op>)
    ensures Apply(rows, a + b) == Apply(Apply(rows, a), b)
  {
    if b == [] {
      assert a + b == a;
    } else {
      var n := |b| - 1;
      assert (a + b)[..|a| + n] == a + b[..n];
      ApplyAppend(rows, a, b[..n]);
    }
  }

  lemma {:induction false} WithoutAppend(a: seq<Route>, b: seq<Route>, id: Id)
    ensures Without(a + b, id) == Without(a, id) + Without(b, id)
  {
    if a == [] {
      assert a + b == b;
      assert Without(a, id) + Without(b, id) == Without(b, id);
    } else {
      var head := if a[0].id == id then [] else [a[0]];
      assert (a + b)[1..] == a[1..] + b;
      WithoutAppend(a[1..], b, id);
      Associate(head, Without(a[1..], id), Without(b, id));
    }
  }

  lemma Associate<T>(a: seq<T>, b: seq<T>, c: seq<T>)
    ensures a + (b + c) == a + b + c
  {
  }

  lemma {:induction false} WithoutAbsent(rows: seq<Route>, id: Id)
    requires !Present(rows, id)
    ensures Without(rows, id) == rows
  {
    if rows != [] {
      assert rows[0].id != id;
      forall i | 0 <= i < |rows| - 1 ensures rows[1..][i].id != id {
        assert rows[i + 1].id != id;
      }
      WithoutAbsent(rows[1..], id);
    }
  }

  lemma {:induction false} WithoutGone(rows: seq<Route>, id: Id)
    ensures !Present(Without(rows, id), id)
    ensures forall other: Id | other != id :: Present(Without(rows, id), other) <==> Present(rows, other)
  {
    if rows != [] {
      var rest := Without(rows[1..], id);
      WithoutGone(rows[1..], id);
      PresentCons(rows[0], rows[1..]);
      assert rows == [rows[0]] + rows[1..];
      if rows[0].id != id {
        PresentCons(rows[0], rest);
      } else {
        assert [] + rest == rest;
      }
    }
  }

  lemma PresentCons(r: Route, rows: seq<Route>)
    ensures forall id: Id :: Present([r] + rows, id) <==> r.id == id || Present(rows, id)
  {
    forall id: Id ensures Present([r] + rows, id) <==> r.id == id || Present(rows, id) {
      if Present(rows, id) {
        var i :| 0 <= i < |rows| && rows[i].id == id;
        assert ([r] + rows)[i + 1].id == id;
      }
      if r.id == id {
        assert ([r] + rows)[0].id == id;
      }
      if Present([r] + rows, id) {
        var i :| 0 <= i < 1 + |rows| && ([r] + rows)[i].id == id;
        if i > 0 {
          assert rows[i - 1].id == id;
        }
      }
    }
  }

  /* ---------- what survives a run ---------- */

  predicate Superseded(log: seq<Op>, i: nat) {
    i < |log| && exists j :: i < j < |log| && log[j].route.id == log[i].route.id
  }

  // The announced routes of a log whose id no later operation mentions, in the log's order.
  function Survivors(log: seq<Op>): seq<Route> {
    if log == [] then []
    else (if log[0].announce && !Superseded(log, 0) then [log[0].route] else []) + Survivors(log[1..])
  }

  lemma SupersededSnoc(log: seq<Op>, op: Op)
    requires log != []
    ensures Superseded(log + [op], 0) <==> Superseded(log, 0) || op.route.id == log[0].route.id
  {
    if Superseded(log + [op], 0) {
      var j :| 0 < j < |log| + 1 && (log + [op])[j].route.id == log[0].route.id;
      if j < |log| {
        assert log[j].route.id == log[0].route.id;
      }
    }
    if op.route.id == log[0].route.id {
      assert (log + [op])[|log|].route.id == log[0].route.id;
    }
    if Superseded(log, 0) {
      var j :| 0 < j < |log| && log[j].route.id == log[0].route.id;
      assert (log + [op])[j].route.id == log[0].route.id;
    }
  }

  lemma {:induction false} SurvivorsSnoc(log: seq<Op>, op: Op)
    ensures Survivors(log + [op]) == Step(Survivors(log), op)
  {
    hide Survivors, Superseded, Without, Step;
    if log == [] {
      assert log + [op] == [op];
      SurvivorsOfOne(op);
    } else {
      assert (log + [op])[1..] == log[1..] + [op];
      SurvivorsFront(log);
      SurvivorsFront(log + [op]);
      SurvivorsSnoc(log[1..], op);
      SupersededSnoc(log, op);
      HeadStep(log[0], Superseded(log, 0), Survivors(log[1..]), op);
    }
  }

  // What the first operation of a log leaves, given whether a later one mentions its id.
  function HeadLeft(op: Op, superseded: bool): seq<Route> {
    if op.announce && !superseded then [op.route] else []
  }

  lemma SurvivorsFront(log: seq<Op>)
    requires log != []
    ensures Survivors(log) == HeadLeft(log[0], Superseded(log, 0)) + Survivors(log[1..])
  {
  }

  lemma SurvivorsOfOne(op: Op)
    ensures Survivors([op]) == Step(Survivors([]), op)
  {
    assert !Superseded([op], 0) && [op][1..] == [];
  }

  lemma HeadStep(first: Op, superseded: bool, rest: seq<Route>, op: Op)
    ensures HeadLeft(first, superseded || op.route.id == first.route.id) + Step(rest, op)
         == Step(HeadLeft(first, superseded) + rest, op)
  {
    hide Without;
    var head, id := HeadLeft(first, superseded), op.route.id;
    WithoutAppend(head, rest, id);
    WithoutSingle(first.route, id);
    Associate(Without(head, id), Without(rest, id), if op.announce then [op.route] else []);
  }

  lemma WithoutSingle(r: Route, id: Id)
    ensures Without([r], id) == if r.id == id then [] else [r]
    ensures Without([], id) == []
  {
    assert [r][1..] == [];
  }

  // Working through a log leaves exactly the routes whose last mention announced them, ordered
  // by that announcement.
  lemma {:induction false} TableIsSurvivors(log: seq<Op>)
    ensures Apply([], log) == Survivors(log)
  {
    if log != [] {
      var n := |log| - 1;
      TableIsSurvivors(log[..n]);
      SurvivorsSnoc(log[..n], log[n]);
      assert log[..n] + [log[n]] == log;
    }
  }

  // A whole run mixes updates with clears of the table.
  datatype Command = Operations(ops: seq<Op>) | Clear

  function Run(commands: seq<Command>): seq<Route> {
    if commands == [] then []
    else match commands[|commands| - 1]
      case Operations(ops) => Apply(Run(commands[..|commands| - 1]), ops)
      case Clear => []
  }

  // All operations since the last clear.
  function LogSinceClear(commands: seq<Command>): seq<Op> {
    if commands == [] then []
    else match commands[|commands| - 1]
      case Operations(ops) => LogSinceClear(commands[..|commands| - 1]) + ops
      case Clear => []
  }

  lemma RunIsSurvivors(commands: seq<Command>)
    ensures Run(commands) == Survivors(LogSinceClear(commands))
  {
    TableIsSurvivors(LogSinceClear(commands));
    RunIsApply(commands);
  }

  lemma {:induction false} RunIsApply(commands: seq<Command>)
    ensures Run(commands) == Apply([], LogSinceClear(commands))
  {
    if commands != [] {
      var init, last := commands[..|commands| - 1], commands[|commands| - 1];
      if last.Operations? {
        RunIsApply(init);
        ApplyAppend([], LogSinceClear(init), last.ops);
      }
    }
  }

  /* ---------- one id at a time ---------- */

  predicate Distinct(rows: seq<Route>) {
    forall i, j | 0 <= i < j < |rows| :: rows[i].id != rows[j].id
  }

  lemma DistinctCons(r: Route, rows: seq<Route>)
    ensures Distinct([r] + rows) <==> Distinct(rows) && forall other | other in rows :: other.id != r.id
  {
    var all := [r] + rows;
    assert all[0] == r && forall i | 0 <= i < |rows| :: all[i + 1] == rows[i];
    if Distinct(all) {
      forall i, j | 0 <= i < j < |rows| ensures rows[i].id != rows[j].id {
        assert all[i + 1].id != all[j + 1].id;
      }
    }
  }

  lemma PresentIs(rows: seq<Route>, id: Id)
    ensures Present(rows, id) <==> exists r :: r in rows && r.id == id
  {
    if r :| r in rows && r.id == id {
      var i :| 0 <= i < |rows| && rows[i] == r;
    }
  }

  lemma {:induction false} WithoutDistinct(rows: seq<Route>, id: Id)
    requires Distinct(rows)
    ensures Distinct(Without(rows, id))
    ensures forall r | r in Without(rows, id) :: r in rows
    ensures |Without(rows, id)| == |rows| - if Present(rows, id) then 1 else 0
  {
    hide Present, Distinct;
    if rows == [] {
      PresentIs(rows, id);
      NoRows();
    } else {
      var rest := rows[1..];
      assert rows == [rows[0]] + rest;
      PresentCons(rows[0], rest);
      DistinctCons(rows[0], rest);
      DistinctCons(rows[0], Without(rest, id));
      WithoutDistinct(rest, id);
      PresentIs(rest, id);
      if rows[0].id == id {
        assert [] + Without(rest, id) == Without(rest, id);
      }
    }
  }

  lemma NoRows()
    ensures Distinct([])
  {
  }

  lemma StepPresent(rows: seq<Route>, op: Op)
    ensures forall id: Id ::
              Present(Step(rows, op), id) <==> if id == op.route.id then op.announce else Present(rows, id)
  {
    var kept := Without(rows, op.route.id);
    WithoutGone(rows, op.route.id);
    if op.announce {
      PresentSnoc(kept, op.route);
    } else {
      assert kept + [] == kept;
    }
  }

  lemma PresentSnoc(rows: seq<Route>, r: Route)
    ensures forall id: Id :: Present(rows + [r], id) <==> r.id == id || Present(rows, id)
  {
    forall id: Id ensures Present(rows + [r], id) <==> r.id == id || Present(rows, id) {
      assert (rows + [r])[|rows|] == r;
      if Present(rows, id) {
        var i :| 0 <= i < |rows| && rows[i].id == id;
        assert (rows + [r])[i].id == id;
      }
      if Present(rows + [r], id) {
        var i :| 0 <= i < |rows| + 1 && (rows + [r])[i].id == id;
        if i < |rows| {
          assert rows[i].id == id;
        }
      }
    }
  }

  lemma StepDistinct(rows: seq<Route>, op: Op)
    requires Distinct(rows)
    ensures Distinct(Step(rows, op))
    ensures |Step(rows, op)| == |rows| - (if Present(rows, op.route.id) then 1 else 0) + (if op.announce then 1 else 0)
  {
    WithoutDistinct(rows, op.route.id);
    WithoutGone(rows, op.route.id);
    var kept := Without(rows, op.route.id);
    forall i | 0 <= i < |kept| ensures kept[i].id != op.route.id {
    }
  }

  // Whether the last operation on an id announces it, if there is one.
  function LastMention(ops: seq<Op>, id: Id): Option<bool> {
    if ops == [] then None
    else if ops[|ops| - 1].route.id == id then Some(ops[|ops| - 1].announce)
    else LastMention(ops[..|ops| - 1], id)
  }

  lemma {:induction false} LastMentionIs(ops: seq<Op>, i: nat)
    requires i < |ops| && !Superseded(ops, i)
    ensures LastMention(ops, ops[i].route.id) == Some(ops[i].announce)
  {
    var n := |ops| - 1;
    if i < n {
      assert ops[n].route.id != ops[i].route.id;
      assert forall j | 0 <= j < n :: ops[..n][j] == ops[j];
      LastMentionIs(ops[..n], i);
    }
  }

  // After any operations an id is present exactly when its last mention announced it, or when it
  // was there before and is not mentioned.
  lemma {:induction false} LastMentionDecides(rows: seq<Route>, ops: seq<Op>, id: Id)
    ensures Present(Apply(rows, ops), id)
       <==> if LastMention(ops, id).None? then Present(rows, id) else LastMention(ops, id).value
  {
    if ops != [] {
      LastMentionDecides(rows, ops[..|ops| - 1], id);
      StepPresent(Apply(rows, ops[..|ops| - 1]), ops[|ops| - 1]);
    }
  }

  lemma {:induction false} ApplyDistinct(rows: seq<Route>, ops: seq<Op>)
    requires Distinct(rows)
    ensures Distinct(Apply(rows, ops))
  {
    if ops != [] {
      ApplyDistinct(rows, ops[..|ops| - 1]);
      StepDistinct(Apply(rows, ops[..|ops| - 1]), ops[|ops| - 1]);
    }
  }
}
