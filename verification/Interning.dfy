/**
 * Sharing of equal route attributes. Routes hold references to immutable contents; a pool hands
 * out one reference for each content and is collected by counting who else holds it. Updates take
 * the lock anew for interning and for every route, so they interleave with each other, with
 * collection and with readers that keep copies of the table.
 */
module Interning {
  import opened Base
  import opened Attributes
  import opened UpdateCodec

  // The texts routes share: the name of a group, and the peer's address.
  datatype Text = LabelText(group: Label) | AddressText(octets: Bytes)

  // The three kinds of content, each with a pool of its own.
  datatype Content =
    | PathContent(asns: seq<nat>)
    | CommunityContent(communities: seq<Community>)
    | TextContent(text: Text)

  // A reference is the number of an allocation.
  type Ref = nat

  type Id = string

  type Entries = map<Content, Ref>

  function Retained(entries: Entries, strong: Ref -> nat): Entries {
    map v | v in entries && strong(entries[v]) > 1 :: entries[v]
  }

  /* ---------- the whole system ---------- */

  // What an update under way holds: what its routes share, and the name of the group it is in.
  datatype Work = Work(shared: seq<Ref>, group: seq<Ref>)

  // A reader's copy of the table, and how many clears had come before it.
  datatype Copy = Copy(epoch: nat, routes: map<Id, seq<Ref>>)

  // heap lists every allocation ever made; floor is where the allocations since the last clear begin.
  datatype State = State(heap: seq<Content>, pool: Entries, rib: map<Id, seq<Ref>>, works: map<nat, Work>,
                         copies: map<nat, Copy>, epoch: nat, floor: nat)

  const START := State([], map[], map[], map[], map[], 0, 0)

  // One critical section, or the end of an update or of a reader.
  datatype Move =
    | Begin(name: nat, contents: seq<Content>)
    | Group(name: nat, text: Text)
    | Insert(name: nat, id: Id)
    | Remove(id: Id)
    | Leave(name: nat)
    | Finish(name: nat)
    | Collect
    | TakeCopy(name: nat)
    | DropCopy(name: nat)
    | Clear

  function InternOne(s: State, v: Content): State {
    if v in s.pool then s else s.(heap := s.heap + [v], pool := s.pool[v := |s.heap|])
  }

  function InternAll(s: State, contents: seq<Content>): (State, seq<Ref>) {
    if contents == [] then (s, [])
    else
      var n := |contents| - 1;
      var before := InternAll(s, contents[..n]);
      var after := InternOne(before.0, contents[n]);
      (after, before.1 + [after.pool[contents[n]]])
  }

  // How many hold a reference, the pool included.
  function StrongCount(s: State, r: Ref): nat {
    1 + |set id | id in s.rib && r in s.rib[id]|
    + |set w | w in s.works && (r in s.works[w].shared || r in s.works[w].group)|
    + |set k | k in s.copies && CopyHolds(s.copies[k], r)|
  }

  predicate CopyHolds(c: Copy, r: Ref) {
    exists id :: id in c.routes && r in c.routes[id]
  }

  function Moved(s: State, m: Move): State {
    match m
    case Begin(name, contents) =>
      var t := InternAll(s, contents);
      t.0.(works := t.0.works[name := Work(t.1, [])])
    case Group(name, text) =>
      if name !in s.works then s
      else
        var t := InternOne(s, TextContent(text));
        t.(works := t.works[name := t.works[name].(group := [t.pool[TextContent(text)]])])
    case Insert(name, id) =>
      if name !in s.works || s.works[name].group == [] then s
      else s.(rib := s.rib[id := s.works[name].shared + s.works[name].group])
    case Remove(id) => s.(rib := s.rib - {id})
    case Leave(name) =>
      if name in s.works then s.(works := s.works[name := s.works[name].(group := [])]) else s
    case Finish(name) => s.(works := s.works - {name})
    case Collect => s.(pool := Retained(s.pool, r => StrongCount(s, r)))
    case TakeCopy(name) => s.(copies := s.copies[name := Copy(s.epoch, s.rib)])
    case DropCopy(name) => s.(copies := s.copies - {name})
    case Clear => s.(rib := map[], pool := map[], epoch := s.epoch + 1, floor := |s.heap|)
  }

  function Run(moves: seq<Move>): State {
    if moves == [] then START else Moved(Run(moves[..|moves| - 1]), moves[|moves| - 1])
  }

  // The table is cleared only between updates, as when one task does both.
  predicate ClearedWhenIdle(moves: seq<Move>) {
    forall i | 0 <= i < |moves| && moves[i].Clear? :: Run(moves[..i]).works == map[]
  }

  /* ---------- the pool itself ---------- */

  // heap is what the allocator has handed out: a new allocation gets the next number.
  class Pool {
    var entries: Entries
    var heap: seq<Content>

    ghost predicate Represents(s: State)
      reads this
    {
      entries == s.pool && heap == s.heap
    }

    constructor ()
      ensures Represents(START)
    {
      entries, heap := map[], [];
    }

    method Intern(v: Content, ghost s: State) returns (r: Ref)
      requires Represents(s)
      modifies this
      ensures Represents(InternOne(s, v)) && r == InternOne(s, v).pool[v]
      ensures heap == old(heap) <==> v in old(entries)
    {
      if v in entries {
        return entries[v];
      }
      r := |heap|;
      heap := heap + [v];
      entries := entries[v := r];
    }

    method InternEach(contents: seq<Content>, ghost s: State) returns (refs: seq<Ref>)
      requires Represents(s)
      modifies this
      ensures Represents(InternAll(s, contents).0) && refs == InternAll(s, contents).1
    {
      hide InternOne;
      refs := [];
      ghost var t := s;
      for i := 0 to |contents|
        invariant t == InternAll(s, contents[..i]).0 && Represents(t)
        invariant refs == InternAll(s, contents[..i]).1
      {
        assert contents[..i + 1][..i] == contents[..i];
        var r := Intern(contents[i], t);
        t := InternOne(t, contents[i]);
        refs := refs + [r];
      }
      assert contents[..|contents|] == contents;
    }

    method Collect(strong: Ref -> nat)
      modifies this
      ensures entries == Retained(old(entries), strong) && heap == old(heap)
    {
      var todo := entries.Keys;
      while todo != {}
        invariant todo <= entries.Keys <= old(entries).Keys && heap == old(heap)
        invariant forall v | v in entries :: entries[v] == old(entries)[v]
        invariant forall v | v in old(entries) && v !in todo :: v in entries <==> strong(old(entries)[v]) > 1
        decreases |todo|
      {
        var v :| v in todo;
        todo := todo - {v};
        if strong(entries[v]) <= 1 {
          entries := entries - {v};
        }
      }
    }

    // The pool's part in a step of the system, with the references it hands out.
    method Step(m: Move, strong: Ref -> nat, ghost s: State) returns (refs: seq<Ref>)
      requires Represents(s) && forall r :: strong(r) == StrongCount(s, r)
      requires m.Group? ==> m.name in s.works
      modifies this
      ensures Represents(Moved(s, m))
      ensures m.Begin? ==> Moved(s, m).works[m.name] == Work(refs, [])
      ensures m.Group? ==> Moved(s, m).works[m.name] == Work(s.works[m.name].shared, refs)
    {
      hide StrongCount, InternAll, InternOne;
      refs := [];
      match m {
        case Begin(_, contents) =>
          InternKeeps(s, contents);
          refs := InternEach(contents, s);
        case Group(_, text) =>
          InternOneKeeps(s, TextContent(text));
          var r := Intern(TextContent(text), s);
          refs := [r];
        case Collect =>
          SameRetained(entries, strong, r => StrongCount(s, r));
          Collect(strong);
        case Clear =>
          entries := map[];
        case _ =>
      }
    }
  }

  lemma SameRetained(entries: Entries, f: Ref -> nat, g: Ref -> nat)
    requires forall r :: f(r) == g(r)
    ensures Retained(entries, f) == Retained(entries, g)
  {
  }

  lemma InternOneKeeps(s: State, v: Content)
    ensures InternOne(s, v) == s.(heap := InternOne(s, v).heap, pool := InternOne(s, v).pool)
    ensures v in InternOne(s, v).pool
  {
  }

  // Interning touches the heap and the pool only.
  lemma {:induction false} InternKeeps(s: State, contents: seq<Content>)
    ensures InternAll(s, contents).0
         == s.(heap := InternAll(s, contents).0.heap, pool := InternAll(s, contents).0.pool)
  {
    hide InternOne;
    if contents != [] {
      InternKeeps(s, contents[..|contents| - 1]);
      InternOneKeeps(InternAll(s, contents[..|contents| - 1]).0, contents[|contents| - 1]);
    }
  }

  /* ---------- the invariant ---------- */

  // The pool would hand out this very reference for its content.
  predicate Shared(s: State, r: Ref) {
    r < |s.heap| && s.heap[r] in s.pool && s.pool[s.heap[r]] == r
  }

  predicate AllShared(s: State, refs: seq<Ref>) {
    forall i | 0 <= i < |refs| :: Shared(s, refs[i])
  }

  predicate PoolOk(s: State) {
    s.floor <= |s.heap| && forall v | v in s.pool :: s.floor <= s.pool[v] < |s.heap| && s.heap[s.pool[v]] == v
  }

  predicate RibOk(s: State) {
    forall id | id in s.rib :: AllShared(s, s.rib[id])
  }

  predicate WorksOk(s: State) {
    forall w | w in s.works :: AllShared(s, s.works[w].shared) && AllShared(s, s.works[w].group)
  }

  predicate Old(s: State, refs: seq<Ref>) {
    forall i | 0 <= i < |refs| :: refs[i] < s.floor
  }

  predicate CopyOk(s: State, c: Copy) {
    && c.epoch <= s.epoch
    && forall id | id in c.routes :: if c.epoch == s.epoch then AllShared(s, c.routes[id]) else Old(s, c.routes[id])
  }

  predicate CopiesOk(s: State) {
    forall k | k in s.copies :: CopyOk(s, s.copies[k])
  }

  predicate Canonical(s: State) {
    PoolOk(s) && RibOk(s) && WorksOk(s) && CopiesOk(s)
  }

  // Growing the heap and the pool keeps what was shared.
  predicate Grows(s: State, t: State) {
    && |s.heap| <= |t.heap| && t.heap[..|s.heap|] == s.heap
    && (forall v | v in s.pool :: v in t.pool && t.pool[v] == s.pool[v])
    && t == s.(heap := t.heap, pool := t.pool)
  }

  lemma GrowsShared(s: State, t: State, refs: seq<Ref>)
    requires Grows(s, t) && AllShared(s, refs)
    ensures AllShared(t, refs)
  {
    forall i | 0 <= i < |refs| ensures Shared(t, refs[i]) {
      assert Shared(s, refs[i]);
      assert t.heap[refs[i]] == s.heap[refs[i]];
    }
  }

  lemma GrowsCanonical(s: State, t: State)
    requires Canonical(s) && Grows(s, t) && PoolOk(t)
    ensures Canonical(t)
  {
    hide AllShared, PoolOk;
    forall id | id in t.rib ensures AllShared(t, t.rib[id]) {
      GrowsShared(s, t, t.rib[id]);
    }
    forall w | w in t.works ensures AllShared(t, t.works[w].shared) && AllShared(t, t.works[w].group) {
      GrowsShared(s, t, t.works[w].shared);
      GrowsShared(s, t, t.works[w].group);
    }
    forall k | k in t.copies ensures CopyOk(t, t.copies[k]) {
      var c := t.copies[k];
      assert CopyOk(s, c);
      if c.epoch == s.epoch {
        forall id | id in c.routes ensures AllShared(t, c.routes[id]) {
          GrowsShared(s, t, c.routes[id]);
        }
      }
    }
  }

  lemma InternOneGrows(s: State, v: Content)
    requires PoolOk(s)
    ensures var t := InternOne(s, v); Grows(s, t) && PoolOk(t) && v in t.pool && Shared(t, t.pool[v])
  {
  }

  lemma GrowsFurther(s: State, t: State, u: State)
    requires Grows(s, t) && Grows(t, u)
    ensures Grows(s, u)
  {
    assert u.heap[..|s.heap|] == u.heap[..|t.heap|][..|s.heap|];
  }

  /* ---------- what the references stand for ---------- */

  // Contents behind references; a reference never allocated stands for nothing.
  function Contents(heap: seq<Content>, refs: seq<Ref>): (c: seq<Content>)
    ensures |c| == |refs|
  {
    seq(|refs|, i requires 0 <= i < |refs| => if refs[i] < |heap| then heap[refs[i]] else TextContent(AddressText([])))
  }

  lemma GrowsContents(s: State, t: State, refs: seq<Ref>)
    requires Grows(s, t) && AllShared(s, refs)
    ensures Contents(t.heap, refs) == Contents(s.heap, refs)
  {
    forall i | 0 <= i < |refs| ensures Contents(t.heap, refs)[i] == Contents(s.heap, refs)[i] {
      assert Shared(s, refs[i]);
      assert t.heap[refs[i]] == s.heap[refs[i]];
    }
  }

  // Interning one more content after a list of them.
  lemma InternNext(s: State, t: State, refs: seq<Ref>, v: Content)
    requires Grows(s, t) && PoolOk(t) && AllShared(t, refs)
    ensures var u := InternOne(t, v);
            && Grows(s, u) && PoolOk(u) && AllShared(u, refs + [u.pool[v]])
            && Contents(u.heap, refs + [u.pool[v]]) == Contents(t.heap, refs) + [v]
  {
    hide Grows;
    var u := InternOne(t, v);
    InternOneGrows(t, v);
    GrowsFurther(s, t, u);
    GrowsShared(t, u, refs);
    GrowsContents(t, u, refs);
  }

  lemma {:induction false} InternAllGrows(s: State, contents: seq<Content>)
    requires PoolOk(s)
    ensures var (t, refs) := InternAll(s, contents);
            Grows(s, t) && PoolOk(t) && AllShared(t, refs) && Contents(t.heap, refs) == contents
  {
    hide InternOne, PoolOk, AllShared, Contents;
    if contents == [] {
      NoRefs(s);
    } else {
      var n := |contents| - 1;
      var (t, refs) := InternAll(s, contents[..n]);
      InternAllGrows(s, contents[..n]);
      InternNext(s, t, refs, contents[n]);
      assert contents == contents[..n] + [contents[n]];
    }
  }

  /* ---------- every step keeps it ---------- */

  lemma HeldCounts(s: State, r: Ref)
    ensures StrongCount(s, r) > 1 <==> Held(s, r)
  {
    var inRib := set id | id in s.rib && r in s.rib[id];
    var inWorks := set w | w in s.works && (r in s.works[w].shared || r in s.works[w].group);
    var inCopies := set k | k in s.copies && CopyHolds(s.copies[k], r);
    if exists id :: id in s.rib && r in s.rib[id] {
      var id :| id in s.rib && r in s.rib[id];
      assert id in inRib;
    } else {
      assert inRib == {};
    }
    if exists w :: w in s.works && (r in s.works[w].shared || r in s.works[w].group) {
      var w :| w in s.works && (r in s.works[w].shared || r in s.works[w].group);
      assert w in inWorks;
    } else {
      assert inWorks == {};
    }
    if exists k :: k in s.copies && CopyHolds(s.copies[k], r) {
      var k :| k in s.copies && CopyHolds(s.copies[k], r);
      assert k in inCopies;
    } else {
      assert inCopies == {};
    }
  }

  // Someone besides the pool holds the reference.
  predicate Held(s: State, r: Ref) {
    || (exists id :: id in s.rib && r in s.rib[id])
    || (exists w :: w in s.works && (r in s.works[w].shared || r in s.works[w].group))
    || (exists k :: k in s.copies && CopyHolds(s.copies[k], r))
  }

  lemma CollectKeeps(s: State, refs: seq<Ref>)
    requires AllShared(s, refs) && forall r | r in refs :: Held(s, r)
    ensures AllShared(Moved(s, Collect), refs)
  {
    hide Held, StrongCount;
    forall i | 0 <= i < |refs| ensures Shared(Moved(s, Collect), refs[i]) {
      assert Shared(s, refs[i]) && refs[i] in refs;
      HeldCounts(s, refs[i]);
    }
  }

  lemma CollectCopy(s: State, k: nat)
    requires Canonical(s) && k in s.copies
    ensures CopyOk(Moved(s, Collect), s.copies[k])
  {
    hide PoolOk, RibOk, WorksOk, AllShared, StrongCount;
    var c := s.copies[k];
    assert CopyOk(s, c);
    if c.epoch == s.epoch {
      forall id | id in c.routes ensures AllShared(Moved(s, Collect), c.routes[id]) {
        assert forall r | r in c.routes[id] :: CopyHolds(c, r);
        CollectKeeps(s, c.routes[id]);
      }
    }
  }

  lemma CollectCanonical(s: State)
    requires Canonical(s)
    ensures Canonical(Moved(s, Collect))
  {
    hide StrongCount, AllShared;
    var t := Moved(s, Collect);
    forall id | id in t.rib ensures AllShared(t, t.rib[id]) {
      CollectKeeps(s, s.rib[id]);
    }
    forall w | w in t.works ensures AllShared(t, t.works[w].shared) && AllShared(t, t.works[w].group) {
      CollectKeeps(s, s.works[w].shared);
      CollectKeeps(s, s.works[w].group);
    }
    forall k | k in t.copies ensures CopyOk(t, t.copies[k]) {
      CollectCopy(s, k);
    }
  }

  lemma BeginCanonical(s: State, name: nat, contents: seq<Content>)
    requires Canonical(s)
    ensures Canonical(Moved(s, Begin(name, contents)))
  {
    hide AllShared, PoolOk, InternAll, Contents;
    var (t, refs) := InternAll(s, contents);
    InternAllGrows(s, contents);
    GrowsCanonical(s, t);
    SameHeap(t, Moved(s, Begin(name, contents)));
    NoRefs(t);
  }

  lemma NoRefs(s: State)
    ensures AllShared(s, [])
  {
  }

  // Whether references are shared depends on the heap and the pool alone.
  lemma SameHeap(s: State, t: State)
    requires s.heap == t.heap && s.pool == t.pool
    ensures forall refs: seq<Ref> :: AllShared(s, refs) <==> AllShared(t, refs)
    ensures s.floor == t.floor ==> (PoolOk(s) <==> PoolOk(t))
    ensures s.floor == t.floor && s.epoch == t.epoch ==> forall c: Copy :: CopyOk(s, c) <==> CopyOk(t, c)
  {
    assert forall r: Ref :: Shared(s, r) <==> Shared(t, r);
  }

  lemma GroupCanonical(s: State, name: nat, text: Text)
    requires Canonical(s)
    ensures Canonical(Moved(s, Group(name, text)))
  {
    hide PoolOk, InternOne;
    if name in s.works {
      var t := InternOne(s, TextContent(text));
      InternOneGrows(s, TextContent(text));
      GrowsCanonical(s, t);
      SameHeap(t, Moved(s, Group(name, text)));
    }
  }

  lemma InsertCanonical(s: State, name: nat, id: Id)
    requires Canonical(s)
    ensures Canonical(Moved(s, Insert(name, id)))
  {
    hide PoolOk;
    if name in s.works {
      var t := Moved(s, Insert(name, id));
      SameHeap(s, t);
      assert AllShared(s, s.works[name].shared + s.works[name].group);
    }
  }

  lemma ClearCanonical(s: State)
    requires Canonical(s) && s.works == map[]
    ensures Canonical(Moved(s, Clear))
  {
    var t := Moved(s, Clear);
    forall k | k in t.copies ensures CopyOk(t, t.copies[k]) {
      var c := s.copies[k];
      assert CopyOk(s, c);
      forall id | id in c.routes ensures Old(t, c.routes[id]) {
        assert forall i | 0 <= i < |c.routes[id]| :: Shared(s, c.routes[id][i]) || c.routes[id][i] < s.floor;
      }
    }
  }

  lemma CopyCanonical(s: State, m: Move)
    requires Canonical(s) && (m.Remove? || m.Finish? || m.TakeCopy? || m.DropCopy?)
    ensures Canonical(Moved(s, m))
  {
    hide PoolOk, AllShared;
    SameHeap(s, Moved(s, m));
  }

  lemma LeaveCanonical(s: State, name: nat)
    requires Canonical(s)
    ensures Canonical(Moved(s, Leave(name)))
  {
    hide PoolOk;
    SameHeap(s, Moved(s, Leave(name)));
  }

  lemma StepCanonical(s: State, m: Move)
    requires Canonical(s) && (m.Clear? ==> s.works == map[])
    ensures Canonical(Moved(s, m))
  {
    hide Canonical, Moved;
    match m
    case Begin(name, contents) => BeginCanonical(s, name, contents);
    case Group(name, text) => GroupCanonical(s, name, text);
    case Insert(name, id) => InsertCanonical(s, name, id);
    case Leave(name) => LeaveCanonical(s, name);
    case Collect => CollectCanonical(s);
    case Clear => ClearCanonical(s);
    case _ => CopyCanonical(s, m);
  }

  lemma {:induction false} RunCanonical(moves: seq<Move>)
    requires ClearedWhenIdle(moves)
    ensures Canonical(Run(moves))
  {
    hide Canonical, Moved;
    if moves == [] {
      StartCanonical();
    } else {
      var n := |moves| - 1;
      assert ClearedWhenIdle(moves[..n]) by {
        assert forall i | 0 <= i < n :: moves[..n][i] == moves[i] && moves[..n][..i] == moves[..i];
      }
      RunCanonical(moves[..n]);
      StepCanonical(Run(moves[..n]), moves[n]);
    }
  }

  lemma StartCanonical()
    ensures Canonical(START)
  {
  }

  /* ---------- main results ---------- */

  // Whatever the interleaving, two stored routes with equal contents hold the same objects.
  lemma EqualContentIsShared(moves: seq<Move>, a: Id, b: Id, i: nat, j: nat)
    requires ClearedWhenIdle(moves) && a in Run(moves).rib && b in Run(moves).rib
    requires i < |Run(moves).rib[a]| && j < |Run(moves).rib[b]|
    ensures var s := Run(moves);
            Contents(s.heap, s.rib[a])[i] == Contents(s.heap, s.rib[b])[j] <==> s.rib[a][i] == s.rib[b][j]
  {
    hide Run, Moved, PoolOk, WorksOk, CopiesOk;
    RunCanonical(moves);
    var s := Run(moves);
    assert AllShared(s, s.rib[a]) && AllShared(s, s.rib[b]);
    assert Shared(s, s.rib[a][i]) && Shared(s, s.rib[b][j]);
  }

  // Held by a stored route, an update under way, or a copy taken since the last clear.
  predicate HeldNow(s: State, r: Ref) {
    || (exists id :: id in s.rib && r in s.rib[id])
    || (exists w :: w in s.works && (r in s.works[w].shared || r in s.works[w].group))
    || (exists k :: k in s.copies && s.copies[k].epoch == s.epoch && CopyHolds(s.copies[k], r))
  }

  // Copies from before the last clear hold nothing the pool knows of.
  lemma HeldIsHeldNow(s: State, r: Ref)
    requires Canonical(s) && Shared(s, r)
    ensures Held(s, r) <==> HeldNow(s, r)
  {
    assert s.floor <= r;
    forall k | k in s.copies && CopyHolds(s.copies[k], r)
      ensures s.copies[k].epoch == s.epoch
    {
      assert CopyOk(s, s.copies[k]);
    }
  }

  lemma HeldNowShared(s: State, r: Ref)
    requires Canonical(s) && HeldNow(s, r)
    ensures Shared(s, r)
  {
    forall k | k in s.copies && s.copies[k].epoch == s.epoch && CopyHolds(s.copies[k], r)
      ensures Shared(s, r)
    {
      assert CopyOk(s, s.copies[k]);
    }
  }

  // After a collection the pool holds exactly what someone else still holds.
  lemma CollectedExactly(moves: seq<Move>, r: Ref)
    requires ClearedWhenIdle(moves)
    ensures var s := Run(moves); Shared(Moved(s, Collect), r) <==> HeldNow(s, r)
  {
    hide Run, Canonical, Held, HeldNow, StrongCount;
    RunCanonical(moves);
    var s := Run(moves);
    if Shared(s, r) {
      HeldIsHeldNow(s, r);
      HeldCounts(s, r);
    }
    if HeldNow(s, r) {
      HeldNowShared(s, r);
    }
  }

  /* ---------- sharing is invisible ---------- */

  // The same system without references: every route and update keeps its contents itself.
  datatype PlainWork = PlainWork(shared: seq<Content>, group: seq<Content>)

  datatype Plain = Plain(rib: map<Id, seq<Content>>, works: map<nat, PlainWork>,
                         copies: map<nat, map<Id, seq<Content>>>)

  function PlainMoved(p: Plain, m: Move): Plain {
    match m
    case Begin(name, contents) => p.(works := p.works[name := PlainWork(contents, [])])
    case Group(name, text) =>
      if name !in p.works then p
      else p.(works := p.works[name := p.works[name].(group := [TextContent(text)])])
    case Insert(name, id) =>
      if name !in p.works || p.works[name].group == [] then p
      else p.(rib := p.rib[id := p.works[name].shared + p.works[name].group])
    case Remove(id) => p.(rib := p.rib - {id})
    case Leave(name) =>
      if name in p.works then p.(works := p.works[name := p.works[name].(group := [])]) else p
    case Finish(name) => p.(works := p.works - {name})
    case Collect => p
    case TakeCopy(name) => p.(copies := p.copies[name := p.rib])
    case DropCopy(name) => p.(copies := p.copies - {name})
    case Clear => p.(rib := map[])
  }

  function PlainRun(moves: seq<Move>): Plain {
    if moves == [] then Plain(map[], map[], map[]) else PlainMoved(PlainRun(moves[..|moves| - 1]), moves[|moves| - 1])
  }

  function Table(heap: seq<Content>, rib: map<Id, seq<Ref>>): map<Id, seq<Content>> {
    map id | id in rib :: Contents(heap, rib[id])
  }

  function ViewWork(heap: seq<Content>, w: Work): PlainWork {
    PlainWork(Contents(heap, w.shared), Contents(heap, w.group))
  }

  function View(s: State): Plain {
    Plain(Table(s.heap, s.rib), map w | w in s.works :: ViewWork(s.heap, s.works[w]),
          map k | k in s.copies :: Table(s.heap, s.copies[k].routes))
  }

  predicate Allocated(s: State, refs: seq<Ref>) {
    forall i | 0 <= i < |refs| :: refs[i] < |s.heap|
  }

  predicate TableAllocated(s: State, rib: map<Id, seq<Ref>>) {
    forall id | id in rib :: Allocated(s, rib[id])
  }

  // Nothing refers past the heap, and the pool's references stand for their contents.
  predicate Sound(s: State) {
    && PoolOk(s) && TableAllocated(s, s.rib)
    && (forall w | w in s.works :: Allocated(s, s.works[w].shared) && Allocated(s, s.works[w].group))
    && (forall k | k in s.copies :: TableAllocated(s, s.copies[k].routes))
  }

  lemma GrowsAllocated(s: State, t: State, refs: seq<Ref>)
    requires Grows(s, t) && Allocated(s, refs)
    ensures Allocated(t, refs) && Contents(t.heap, refs) == Contents(s.heap, refs)
  {
    forall i | 0 <= i < |refs| ensures Contents(t.heap, refs)[i] == Contents(s.heap, refs)[i] {
      assert refs[i] < |s.heap|;
      assert t.heap[refs[i]] == t.heap[..|s.heap|][refs[i]];
    }
  }

  lemma GrowsTable(s: State, t: State, rib: map<Id, seq<Ref>>)
    requires Grows(s, t) && TableAllocated(s, rib)
    ensures TableAllocated(t, rib) && Table(t.heap, rib) == Table(s.heap, rib)
  {
    hide Contents, Allocated, Grows;
    forall id | id in rib
      ensures Allocated(t, rib[id]) && Contents(t.heap, rib[id]) == Contents(s.heap, rib[id])
    {
      GrowsAllocated(s, t, rib[id]);
    }
  }

  lemma GrowsView(s: State, t: State)
    requires Sound(s) && Grows(s, t) && PoolOk(t)
    ensures Sound(t) && View(t) == View(s)
  {
    hide Contents, Allocated, TableAllocated, Table, PoolOk;
    GrowsTable(s, t, s.rib);
    forall w | w in s.works
      ensures Allocated(t, s.works[w].shared) && Allocated(t, s.works[w].group)
      ensures ViewWork(t.heap, s.works[w]) == ViewWork(s.heap, s.works[w])
    {
      GrowsAllocated(s, t, s.works[w].shared);
      GrowsAllocated(s, t, s.works[w].group);
    }
    forall k | k in s.copies
      ensures TableAllocated(t, s.copies[k].routes)
      ensures Table(t.heap, s.copies[k].routes) == Table(s.heap, s.copies[k].routes)
    {
      GrowsTable(s, t, s.copies[k].routes);
    }
  }

  lemma SharedAllocated(s: State, refs: seq<Ref>)
    requires AllShared(s, refs)
    ensures Allocated(s, refs)
  {
    assert forall i | 0 <= i < |refs| :: Shared(s, refs[i]);
  }

  lemma BeginView(s: State, name: nat, contents: seq<Content>)
    requires Sound(s)
    ensures var m := Begin(name, contents); Sound(Moved(s, m)) && View(Moved(s, m)) == PlainMoved(View(s), m)
  {
    hide Contents, Table, TableAllocated, AllShared, InternAll;
    var (t, refs) := InternAll(s, contents);
    InternAllGrows(s, contents);
    GrowsView(s, t);
    SharedAllocated(t, refs);
    var u := Moved(s, Begin(name, contents));
    SameAllocated(t, u);
    assert ViewWork(u.heap, u.works[name]) == PlainWork(contents, []);
  }

  lemma SameAllocated(s: State, t: State)
    requires s.heap == t.heap
    ensures forall refs: seq<Ref> :: Allocated(s, refs) <==> Allocated(t, refs)
    ensures forall rib: map<Id, seq<Ref>> :: TableAllocated(s, rib) <==> TableAllocated(t, rib)
  {
  }

  lemma GroupView(s: State, name: nat, text: Text)
    requires Sound(s)
    ensures var m := Group(name, text); Sound(Moved(s, m)) && View(Moved(s, m)) == PlainMoved(View(s), m)
  {
    hide Table, TableAllocated, InternOne;
    if name in s.works {
      var t := InternOne(s, TextContent(text));
      InternOneGrows(s, TextContent(text));
      GrowsView(s, t);
      var u := Moved(s, Group(name, text));
      SameAllocated(t, u);
      assert Contents(u.heap, [t.pool[TextContent(text)]]) == [TextContent(text)];
      assert View(t).works[name].shared == Contents(t.heap, t.works[name].shared);
    }
  }

  lemma InsertView(s: State, name: nat, id: Id)
    requires Sound(s)
    ensures var m := Insert(name, id); Sound(Moved(s, m)) && View(Moved(s, m)) == PlainMoved(View(s), m)
  {
    hide PoolOk, Contents, Allocated;
    if name in s.works {
      var w := s.works[name];
      var t := Moved(s, Insert(name, id));
      SameAllocated(s, t);
      SameHeap(s, t);
      AllocatedAppend(s, w.shared, w.group);
      assert View(s).works[name] == ViewWork(s.heap, w);
      if w.group != [] {
        assert Table(s.heap, t.rib) == Table(s.heap, s.rib)[id := Contents(s.heap, w.shared + w.group)];
      }
    }
  }

  lemma AllocatedAppend(s: State, a: seq<Ref>, b: seq<Ref>)
    requires Allocated(s, a) && Allocated(s, b)
    ensures Allocated(s, a + b) && Contents(s.heap, a + b) == Contents(s.heap, a) + Contents(s.heap, b)
  {
  }

  lemma PoolView(s: State, m: Move)
    requires Sound(s) && (m.Collect? || m.Clear?)
    ensures Sound(Moved(s, m)) && View(Moved(s, m)) == PlainMoved(View(s), m)
  {
    hide Contents, Allocated, StrongCount, TableAllocated;
    SameAllocated(s, Moved(s, m));
    assert TableAllocated(s, map[]) by {
      NothingStored(s);
    }
  }

  lemma NothingStored(s: State)
    ensures TableAllocated(s, map[])
  {
  }

  lemma FewerView(s: State, m: Move)
    requires Sound(s) && (m.Remove? || m.Finish? || m.DropCopy?)
    ensures Sound(Moved(s, m)) && View(Moved(s, m)) == PlainMoved(View(s), m)
  {
    hide Contents, Allocated, PoolOk, ViewWork;
    SameAllocated(s, Moved(s, m));
    SameHeap(s, Moved(s, m));
  }

  lemma LeaveView(s: State, name: nat)
    requires Sound(s)
    ensures var m := Leave(name); Sound(Moved(s, m)) && View(Moved(s, m)) == PlainMoved(View(s), m)
  {
    hide PoolOk, TableAllocated, Table;
    SameAllocated(s, Moved(s, Leave(name)));
    SameHeap(s, Moved(s, Leave(name)));
    if name in s.works {
      assert Contents(s.heap, []) == [];
      assert View(s).works[name] == ViewWork(s.heap, s.works[name]);
    }
  }

  lemma CopyView(s: State, name: nat)
    requires Sound(s)
    ensures var m := TakeCopy(name); Sound(Moved(s, m)) && View(Moved(s, m)) == PlainMoved(View(s), m)
  {
    hide Contents, Allocated, TableAllocated, Table, PoolOk, ViewWork;
    SameAllocated(s, Moved(s, TakeCopy(name)));
    SameHeap(s, Moved(s, TakeCopy(name)));
  }

  lemma {:induction false} RunSound(moves: seq<Move>)
    ensures Sound(Run(moves)) && View(Run(moves)) == PlainRun(moves)
  {
    hide Sound, View, Moved, PlainMoved;
    if moves == [] {
      StartSound();
    } else {
      var s, m := Run(moves[..|moves| - 1]), moves[|moves| - 1];
      RunSound(moves[..|moves| - 1]);
      match m {
        case Begin(name, contents) => BeginView(s, name, contents);
        case Group(name, text) => GroupView(s, name, text);
        case Insert(name, id) => InsertView(s, name, id);
        case Collect => PoolView(s, m);
        case Clear => PoolView(s, m);
        case Leave(name) => LeaveView(s, name);
        case TakeCopy(name) => CopyView(s, name);
        case _ => FewerView(s, m);
      }
    }
  }

  lemma StartSound()
    ensures Sound(START) && View(START) == Plain(map[], map[], map[])
  {
  }

  // Interning, collecting and clearing at any moment never change what a route, an update under
  // way or a copy of the table reads.
  lemma SharingIsInvisible(moves: seq<Move>)
    ensures View(Run(moves)) == PlainRun(moves)
  {
    RunSound(moves);
  }

  // Without the condition on clears sharing breaks: an update that interned before a clear stores
  // its own copy beside the new one.
  lemma ClearDuringUpdate(path: Content, text: Text) returns (moves: seq<Move>, s: State)
    requires path.PathContent?
    ensures s == Run(moves) && "a" in s.rib && "b" in s.rib
    ensures Contents(s.heap, s.rib["a"]) == Contents(s.heap, s.rib["b"]) && s.rib["a"] != s.rib["b"]
  {
    hide Run, InternAll, Contents;
    var g := TextContent(text);
    moves := [];
    RunNothing();
    s := Extended(moves, Begin(0, [path]), START);
    moves := moves + [Begin(0, [path])];
    InternSingle(START, path);
    s := Extended(moves, Group(0, text), s);
    moves := moves + [Group(0, text)];
    assert s == State([path, g], map[path := 0, g := 1], map[], map[0 := Work([0], [1])], map[], 0, 0);
    s := Extended(moves, Clear, s);
    moves := moves + [Clear];
    s := Extended(moves, Insert(0, "a"), s);
    moves := moves + [Insert(0, "a")];
    assert s == State([path, g], map[], map["a" := [0] + [1]], map[0 := Work([0], [1])], map[], 1, 2);
    InternSingle(s, path);
    s := Extended(moves, Begin(1, [path]), s);
    moves := moves + [Begin(1, [path])];
    assert s.heap == [path, g, path] && s.works[1] == Work([2], []);
    s := Extended(moves, Group(1, text), s);
    moves := moves + [Group(1, text)];
    assert s.heap == [path, g, path, g] && s.works[1] == Work([2], [3]);
    s := Extended(moves, Insert(1, "b"), s);
    moves := moves + [Insert(1, "b")];
    assert s.rib["a"] == [0, 1] && s.rib["b"] == [2, 3];
    FourContents(path, g);
  }

  lemma RunNothing()
    ensures Run([]) == START
  {
  }

  lemma FourContents(v: Content, w: Content)
    ensures Contents([v, w, v, w], [0, 1]) == [v, w] == Contents([v, w, v, w], [2, 3])
  {
  }

  lemma InternSingle(s: State, v: Content)
    ensures InternAll(s, [v]) == (InternOne(s, v), [InternOne(s, v).pool[v]])
  {
    assert [v][..0] == [];
    assert [] + [InternOne(s, v).pool[v]] == [InternOne(s, v).pool[v]];
  }

  lemma Extended(moves: seq<Move>, m: Move, s: State) returns (t: State)
    requires s == Run(moves)
    ensures t == Run(moves + [m]) == Moved(s, m)
  {
    assert (moves + [m])[..|moves|] == moves;
    t := Run(moves + [m]);
  }
}
