/** The routing table as a plain map from route identities to routes. */
module RibMap {
  import opened Base
  import opened UpdateCodec
  import opened Rib
  import opened RibStore
  import opened RibUpdate
  import opened LongestMatch

  // Announcing sets an identity's route, withdrawing removes it.
  function Revised(table: map<Identity, Route>, ops: seq<Op>): map<Identity, Route> {
    if ops == [] then table
    else
      var before, op := Revised(table, ops[..|ops| - 1]), ops[|ops| - 1];
      if op.announce then before[IdentityOf(op.route) := op.route] else before - {IdentityOf(op.route)}
  }

  predicate Keyed(ops: seq<Op>, digest: Identity -> Id) {
    forall i | 0 <= i < |ops| :: ops[i].route.id == digest(IdentityOf(ops[i].route))
  }

  // The rows are the map's routes, each under its own identity.
  ghost predicate Mirrors(rows: seq<Route>, table: map<Identity, Route>) {
    && (forall r | r in rows :: IdentityOf(r) in table && table[IdentityOf(r)] == r)
    && (forall k | k in table :: table[k] in rows && IdentityOf(table[k]) == k)
  }

  lemma {:induction false} WithoutIs(rows: seq<Route>, id: Id)
    ensures forall r :: r in Without(rows, id) <==> r in rows && r.id != id
  {
    if rows != [] {
      WithoutIs(rows[1..], id);
      assert forall r :: r in rows <==> r == rows[0] || r in rows[1..];
    }
  }

  lemma MirrorStep(rows: seq<Route>, table: map<Identity, Route>, op: Op, digest: Identity -> Id)
    requires Injective(digest) && Mirrors(rows, table)
    requires op.route.id == digest(IdentityOf(op.route)) && forall r | r in rows :: r.id == digest(IdentityOf(r))
    ensures Mirrors(Step(rows, op),
                    if op.announce then table[IdentityOf(op.route) := op.route] else table - {IdentityOf(op.route)})
    ensures forall r | r in Step(rows, op) :: r.id == digest(IdentityOf(r))
  {
    hide Without, IdentityOf;
    var kept := Without(rows, op.route.id);
    WithoutIs(rows, op.route.id);
    assert forall r | r in rows :: r.id == op.route.id <==> IdentityOf(r) == IdentityOf(op.route);
    if op.announce {
      assert forall r :: r in kept + [op.route] <==> r in kept || r == op.route;
    } else {
      assert kept + [] == kept;
    }
  }

  predicate AllKeyed(rows: seq<Route>, digest: Identity -> Id) {
    forall r | r in rows :: r.id == digest(IdentityOf(r))
  }

  lemma {:induction false} MirrorApply(rows: seq<Route>, table: map<Identity, Route>, ops: seq<Op>,
                                       digest: Identity -> Id)
    requires Injective(digest) && Keyed(ops, digest) && AllKeyed(rows, digest) && Mirrors(rows, table)
    ensures Mirrors(Apply(rows, ops), Revised(table, ops)) && AllKeyed(Apply(rows, ops), digest)
  {
    hide Step, Injective, Mirrors, IdentityOf;
    if ops != [] {
      var n := |ops| - 1;
      MirrorApply(rows, table, ops[..n], digest);
      MirrorStep(Apply(rows, ops[..n]), Revised(table, ops[..n]), ops[n], digest);
    }
  }

  // The operations of decoded UPDATEs are keyed that way.
  lemma UpdateKeyed(data: Bytes, asnLen: nat, peer: Bytes, digest: Identity -> Id)
    requires ParseUpdate(data, asnLen).Ok?
    ensures Keyed(OpsOf(ParseUpdate(data, asnLen).value, peer, digest), digest)
  {
    hide ParseUpdate, OpsOf, Orderly;
    UpdateOrderly(data, asnLen);
    var u := ParseUpdate(data, asnLen).value;
    OpsAreWellStored(u, peer, digest);
    var ops := OpsOf(u, peer, digest);
    forall i | 0 <= i < |ops| ensures ops[i].route.id == digest(IdentityOf(ops[i].route)) {
      assert WellStored(ops[i].route, digest);
    }
  }

  /* ---------- whole sessions ---------- */

  // The plain map after UPDATE bodies and clears.
  function MapAfter(happenings: seq<Happening>, peer: Bytes, digest: Identity -> Id): map<Identity, Route> {
    if happenings == [] then map[]
    else
      var before := MapAfter(happenings[..|happenings| - 1], peer, digest);
      match happenings[|happenings| - 1]
      case Cleared => map[]
      case Received(body, asnLen) =>
        match ParseUpdate(body, asnLen)
        case Err(_) => before
        case Ok(u) => Revised(before, OpsOf(u, peer, digest))
  }

  // All operations since the last clear.
  function OpsAfter(happenings: seq<Happening>, peer: Bytes, digest: Identity -> Id): seq<Op> {
    if happenings == [] then []
    else
      var before := OpsAfter(happenings[..|happenings| - 1], peer, digest);
      match happenings[|happenings| - 1]
      case Cleared => []
      case Received(body, asnLen) =>
        match ParseUpdate(body, asnLen)
        case Err(_) => before
        case Ok(u) => before + OpsOf(u, peer, digest)
  }

  lemma {:induction false} TableMirrors(happenings: seq<Happening>, peer: Bytes, digest: Identity -> Id)
    requires Injective(digest)
    ensures Mirrors(TableAfter(happenings, peer, digest), MapAfter(happenings, peer, digest))
    ensures AllKeyed(TableAfter(happenings, peer, digest), digest)
    ensures TableAfter(happenings, peer, digest) == Apply([], OpsAfter(happenings, peer, digest))
  {
    hide Mirrors, Injective, Apply, OpsOf, ParseUpdate, Revised, Keyed, AllKeyed;
    if happenings == [] {
      NothingMirrored(digest);
    } else {
      var init := happenings[..|happenings| - 1];
      TableMirrors(init, peer, digest);
      match happenings[|happenings| - 1] {
        case Cleared => NothingMirrored(digest);
        case Received(body, asnLen) =>
          if ParseUpdate(body, asnLen).Ok? {
            var ops := OpsOf(ParseUpdate(body, asnLen).value, peer, digest);
            UpdateKeyed(body, asnLen, peer, digest);
            MirrorApply(TableAfter(init, peer, digest), MapAfter(init, peer, digest), ops, digest);
            ApplyAppend([], OpsAfter(init, peer, digest), ops);
          }
      }
    }
  }

  lemma NothingMirrored(digest: Identity -> Id)
    ensures Mirrors([], map[]) && AllKeyed([], digest) && Apply([], []) == []
  {
  }

  // With ids that tell identities apart, after any UPDATE bodies and clears the table is exactly
  // the map from each identity to its latest route since the last clear, each identity once, in
  // the order of the latest announcements.
  lemma TableIsLatest(happenings: seq<Happening>, peer: Bytes, digest: Identity -> Id)
    requires Injective(digest)
    ensures var rows := TableAfter(happenings, peer, digest);
            && Mirrors(rows, MapAfter(happenings, peer, digest)) && Distinct(rows)
            && rows == Survivors(OpsAfter(happenings, peer, digest))
            && |rows| == |MapAfter(happenings, peer, digest)|
  {
    hide Mirrors, Injective, Survivors, TableAfter, OpsAfter, MapAfter, Apply;
    TableMirrors(happenings, peer, digest);
    TableIsSurvivors(OpsAfter(happenings, peer, digest));
    TableStays(happenings, peer, digest);
    MirrorSize(TableAfter(happenings, peer, digest), MapAfter(happenings, peer, digest));
  }

  lemma {:induction false} MirrorSize(rows: seq<Route>, table: map<Identity, Route>)
    requires Mirrors(rows, table) && Distinct(rows)
    ensures |rows| == |table|
  {
    hide Mirrors, Distinct, IdentityOf;
    if rows == [] {
      MirrorsSomething(rows, table);
    } else {
      var n := |rows| - 1;
      DropLast(rows, table);
      MirrorSize(rows[..n], table - {IdentityOf(rows[n])});
      SmallerMap(table, IdentityOf(rows[n]));
    }
  }

  lemma MirrorsSomething(rows: seq<Route>, table: map<Identity, Route>)
    requires Mirrors(rows, table)
    ensures table != map[] ==> rows != []
  {
    if table != map[] {
      var k :| k in table;
      assert table[k] in rows;
    }
  }

  lemma SmallerMap(table: map<Identity, Route>, k: Identity)
    requires k in table
    ensures |table| == |table - {k}| + 1
  {
    assert table == (table - {k})[k := table[k]];
  }

  lemma DropLast(rows: seq<Route>, table: map<Identity, Route>)
    requires Mirrors(rows, table) && Distinct(rows) && rows != []
    ensures IdentityOf(rows[|rows| - 1]) in table
    ensures Mirrors(rows[..|rows| - 1], table - {IdentityOf(rows[|rows| - 1])}) && Distinct(rows[..|rows| - 1])
  {
    hide IdentityOf;
    var n := |rows| - 1;
    assert forall r :: r in rows <==> r in rows[..n] || r == rows[n];
    assert forall r | r in rows[..n] :: r.id != rows[n].id;
    forall r | r in rows[..n] ensures IdentityOf(r) != IdentityOf(rows[n]) {
      assert table[IdentityOf(r)] == r && table[IdentityOf(rows[n])] == rows[n];
    }
  }

  // The stored table played through the same happenings: decode, apply, clear.
  method Play(data: Data, happenings: seq<Happening>, peer: Bytes, digest: Identity -> Id)
    requires data.Valid() && data.View() == []
    modifies data
    ensures data.Valid() && data.View() == TableAfter(happenings, peer, digest)
  {
    hide Data.Valid, Data.View, Apply, OpsOf, ParseUpdate;
    for i := 0 to |happenings|
      invariant data.Valid() && data.View() == TableAfter(happenings[..i], peer, digest)
    {
      assert happenings[..i + 1][..i] == happenings[..i];
      match happenings[i] {
        case Cleared =>
          data.ClearAll();
        case Received(body, asnLen) =>
          var decoded := DecodeUpdate(body, asnLen);
          if decoded.Ok? {
            var batches := ApplyUpdate(data, decoded.value, peer, digest);
          }
      }
    }
    assert happenings[..|happenings|] == happenings;
  }
}
