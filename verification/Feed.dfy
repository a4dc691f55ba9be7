/**
 * The live event stream: every emission goes to the history and to a bounded broadcast channel in
 * one critical section, and a subscriber takes its place in the channel, a snapshot and a copy of
 * the history in one critical section. Emitters, subscribers and readers interleave freely.
 */
module Feed {
  import opened Base
  import opened History
  import opened Session
  import L = Lifecycle

  // Events the channel keeps for a slow reader.
  const CAPACITY: nat := 64

  // What a snapshot shows.
  datatype Status = Status(running: bool, view: L.View)

  // What a client's stream yields. A snapshot remembers how many events had been sent when it was
  // taken, a live event its place among all events sent.
  datatype Output = Snapshot(at: nat, status: Status) | Replayed(event: Event) | Live(at: nat, event: Event)

  // cursor is the next event to receive; lagged says that a lag was reported and the snapshot
  // answering it is still to be taken. since and joined are where the history last was cleared and
  // where the client subscribed, greeting is what was shown then.
  datatype Client = Client(since: nat, joined: nat, greeting: Status, replay: seq<Event>, cursor: nat, lagged: bool,
                           out: seq<Output>)

  datatype Server = Server(sent: seq<Event>, cleared: nat, history: seq<Event>, status: Status,
                           clients: map<nat, Client>)

  // Change stands for any change of the data that snapshots show.
  datatype Move =
    | Emit(event: Event)
    | Change(status: Status)
    | ClearHistory
    | Subscribe(name: nat)
    | Poll(name: nat)
    | Leave(name: nat)

  // The next thing a client's stream does: the greeting snapshot, the replay, then live events; a
  // reader overtaken by the channel loses its place and takes a fresh snapshot first.
  function Advance(c: Client, sent: seq<Event>, status: Status): Client
    requires c.cursor <= |sent|
  {
    var n := |c.out|;
    if n == 0 then c.(out := [Snapshot(c.joined, c.greeting)])
    else if n <= |c.replay| then c.(out := c.out + [Replayed(c.replay[n - 1])])
    else if c.lagged then c.(lagged := false, out := c.out + [Snapshot(|sent|, status)])
    else if c.cursor + CAPACITY < |sent| then c.(lagged := true, cursor := |sent| - CAPACITY)
    else if c.cursor < |sent| then c.(cursor := c.cursor + 1, out := c.out + [Live(c.cursor, sent[c.cursor])])
    else c
  }

  predicate Placed(s: Server) {
    s.cleared <= |s.sent| && forall name | name in s.clients :: s.clients[name].cursor <= |s.sent|
  }

  function Moved(s: Server, m: Move): (r: Server)
    requires Placed(s)
    ensures Placed(r)
  {
    match m
    case Emit(e) => s.(sent := s.sent + [e], history := Pushed(s.history, e))
    case Change(status) => s.(status := status)
    case ClearHistory => s.(cleared := |s.sent|, history := [])
    case Subscribe(name) =>
      if name in s.clients then s
      else s.(clients := s.clients[name := Client(s.cleared, |s.sent|, s.status, s.history, |s.sent|, false, [])])
    case Poll(name) =>
      if name in s.clients then s.(clients := s.clients[name := Advance(s.clients[name], s.sent, s.status)]) else s
    case Leave(name) => s.(clients := s.clients - {name})
  }

  const FIRST := Status(false, L.QUIET)

  function Run(moves: seq<Move>): (s: Server)
    ensures Placed(s)
  {
    if moves == [] then Server([], 0, [], FIRST, map[]) else Moved(Run(moves[..|moves| - 1]), moves[|moves| - 1])
  }

  /* ---------- what a reader may be told ---------- */

  // How a stream must begin.
  function Opening(c: Client): (r: seq<Output>)
    ensures |r| == 1 + |c.replay|
  {
    [Snapshot(c.joined, c.greeting)] + seq(|c.replay|, i requires 0 <= i < |c.replay| => Replayed(c.replay[i]))
  }

  // The first event not yet told.
  function Reached(told: seq<Output>, joined: nat): nat {
    if told == [] then joined
    else if told[|told| - 1].Live? then told[|told| - 1].at + 1
    else Reached(told[..|told| - 1], joined)
  }

  // What comes after the opening: the events in order from the place of joining, each exactly
  // once. Events are passed over only straight after a snapshot that is newer than all of them, and
  // a snapshot is given only to a reader more than the channel's capacity behind.
  predicate Continuous(told: seq<Output>, joined: nat, sent: seq<Event>) {
    if told == [] then true
    else
      var init := told[..|told| - 1];
      Continuous(init, joined, sent) && MayFollow(init, told[|told| - 1], joined, sent)
  }

  predicate MayFollow(told: seq<Output>, o: Output, joined: nat, sent: seq<Event>) {
    var next := Reached(told, joined);
    match o
    case Snapshot(at, _) => next + CAPACITY < at <= |sent|
    case Replayed(_) => false
    case Live(at, e) => at < |sent| && e == sent[at] && (at == next || SkipAllowed(told, next, at))
  }

  predicate SkipAllowed(told: seq<Output>, next: nat, at: nat) {
    told != [] && told[|told| - 1].Snapshot? && next <= at && at + CAPACITY <= told[|told| - 1].at
  }

  // The next event a client will receive fits what it has been told.
  predicate CursorFits(c: Client, told: seq<Output>, sent: seq<Event>) {
    var next := Reached(told, c.joined);
    if c.lagged then next < c.cursor && c.cursor + CAPACITY <= |sent|
    else c.cursor == next || SkipAllowed(told, next, c.cursor)
  }

  predicate Told(c: Client, sent: seq<Event>) {
    var n := |Opening(c)|;
    if |c.out| < n then c.out == Opening(c)[..|c.out|] && !c.lagged && c.cursor == c.joined
    else
      && c.out[..n] == Opening(c)
      && Continuous(c.out[n..], c.joined, sent)
      && CursorFits(c, c.out[n..], sent)
  }

  predicate Joined(c: Client, sent: seq<Event>) {
    && c.since <= c.joined <= c.cursor <= |sent|
    && c.replay == PushedAll(sent[c.since..c.joined])
  }

  predicate Good(c: Client, sent: seq<Event>) {
    Joined(c, sent) && Told(c, sent)
  }

  predicate Faithful(s: Server) {
    && Placed(s) && s.history == PushedAll(s.sent[s.cleared..])
    && forall name | name in s.clients :: Good(s.clients[name], s.sent)
  }

  /* ---------- proofs ---------- */

  lemma {:induction false} LaterContinuous(told: seq<Output>, joined: nat, sent: seq<Event>, e: Event)
    requires Continuous(told, joined, sent)
    ensures Continuous(told, joined, sent + [e])
  {
    if told != [] {
      LaterContinuous(told[..|told| - 1], joined, sent, e);
    }
  }

  lemma LaterGood(c: Client, sent: seq<Event>, e: Event)
    requires Good(c, sent)
    ensures Good(c, sent + [e])
  {
    assert (sent + [e])[c.since..c.joined] == sent[c.since..c.joined];
    var n := |Opening(c)|;
    if n <= |c.out| {
      LaterContinuous(c.out[n..], c.joined, sent, e);
    }
  }

  lemma OpeningAt(c: Client, n: nat)
    requires 0 < n <= |c.replay|
    ensures Opening(c)[n] == Replayed(c.replay[n - 1])
  {
  }

  lemma GoodOpening(c: Client, sent: seq<Event>, status: Status)
    requires Good(c, sent) && |c.out| <= |c.replay|
    ensures Good(Advance(c, sent, status), sent)
  {
    var d := Advance(c, sent, status);
    var k := |c.out|;
    if k > 0 {
      OpeningAt(c, k);
    }
    assert d.out == Opening(c)[..k] + [Opening(c)[k]] == Opening(c)[..k + 1];
    if |d.out| == |Opening(d)| {
      assert d.out[..|d.out|] == d.out && d.out[|d.out|..] == [];
    }
  }

  lemma ToldMore(told: seq<Output>, o: Output, joined: nat, sent: seq<Event>)
    requires Continuous(told, joined, sent)
    requires MayFollow(told, o, joined, sent)
    ensures Continuous(told + [o], joined, sent)
    ensures Reached(told + [o], joined) == if o.Live? then o.at + 1 else Reached(told, joined)
  {
    assert (told + [o])[..|told|] == told;
  }

  lemma GoodFurther(c: Client, sent: seq<Event>, status: Status)
    requires Good(c, sent) && |c.replay| < |c.out|
    ensures Good(Advance(c, sent, status), sent)
  {
    hide Continuous, Reached, Opening;
    var d := Advance(c, sent, status);
    var n := |Opening(c)|;
    SameOpening(c, d);
    var told := c.out[n..];
    if d.out != c.out {
      var o := d.out[|c.out|];
      assert d.out == c.out + [o] && d.out[n..] == told + [o] && d.out[..n] == c.out[..n];
      ToldMore(told, o, c.joined, sent);
    }
  }

  lemma SameOpening(c: Client, d: Client)
    requires c.joined == d.joined && c.replay == d.replay && c.greeting == d.greeting
    ensures Opening(c) == Opening(d)
  {
  }

  lemma FaithfulEmit(s: Server, e: Event)
    requires Faithful(s)
    ensures Faithful(Moved(s, Emit(e)))
  {
    hide Good, Pushed;
    var since := s.sent[s.cleared..];
    assert (s.sent + [e])[s.cleared..] == since + [e];
    assert (since + [e])[..|since|] == since;
    forall name | name in s.clients ensures Good(s.clients[name], s.sent + [e]) {
      LaterGood(s.clients[name], s.sent, e);
    }
  }

  lemma FaithfulStep(s: Server, m: Move)
    requires Faithful(s)
    ensures Faithful(Moved(s, m))
  {
    match m
    case Emit(e) => FaithfulEmit(s, e);
    case Change(_) =>
    case ClearHistory =>
    case Subscribe(name) =>
      assert s.sent[s.cleared..|s.sent|] == s.sent[s.cleared..];
    case Poll(name) =>
      if name in s.clients {
        if |s.clients[name].out| <= |s.clients[name].replay| {
          GoodOpening(s.clients[name], s.sent, s.status);
        } else {
          GoodFurther(s.clients[name], s.sent, s.status);
        }
      }
    case Leave(name) =>
  }

  lemma {:induction false} AlwaysFaithful(moves: seq<Move>)
    ensures Faithful(Run(moves))
  {
    if moves != [] {
      AlwaysFaithful(moves[..|moves| - 1]);
      FaithfulStep(Run(moves[..|moves| - 1]), moves[|moves| - 1]);
    }
  }

  /* ---------- what the moves say by themselves ---------- */

  // The events emitted, in order.
  function Emissions(moves: seq<Move>): seq<Event> {
    if moves == [] then []
    else
      var m := moves[|moves| - 1];
      Emissions(moves[..|moves| - 1]) + if m.Emit? then [m.event] else []
  }

  // How many had been emitted when the history was last cleared.
  function ClearedAt(moves: seq<Move>): nat {
    if moves == [] then 0
    else if moves[|moves| - 1].ClearHistory? then |Emissions(moves[..|moves| - 1])|
    else ClearedAt(moves[..|moves| - 1])
  }

  // The data that snapshots show, as last changed.
  function LatestStatus(moves: seq<Move>): Status {
    if moves == [] then Status(false, L.QUIET)
    else if moves[|moves| - 1].Change? then moves[|moves| - 1].status
    else LatestStatus(moves[..|moves| - 1])
  }

  // How many moves came before the one that subscribed a client that has not left.
  function SubscribedAfter(moves: seq<Move>, name: nat): (r: Option<nat>)
    ensures r.Some? ==> r.value < |moves|
  {
    if moves == [] then None
    else
      var n := |moves| - 1;
      var before := SubscribedAfter(moves[..n], name);
      if moves[n] == Leave(name) then None
      else if moves[n] == Subscribe(name) && before.None? then Some(n)
      else before
  }

  // A client's place in the stream is that of the move that subscribed it.
  predicate PlacedBy(c: Client, moves: seq<Move>, k: nat)
    requires k <= |moves|
  {
    var before := moves[..k];
    c.since == ClearedAt(before) && c.joined == |Emissions(before)| && c.greeting == LatestStatus(before)
  }

  lemma {:induction false} EmissionsGrow(moves: seq<Move>, k: nat)
    requires k <= |moves|
    ensures |Emissions(moves[..k])| <= |Emissions(moves)|
    ensures Emissions(moves)[..|Emissions(moves[..k])|] == Emissions(moves[..k])
  {
    if k == |moves| {
      assert moves[..k] == moves;
    } else {
      EmissionsGrow(moves[..|moves| - 1], k);
      assert moves[..|moves| - 1][..k] == moves[..k];
    }
  }

  lemma AdvanceKeepsPlace(c: Client, sent: seq<Event>, status: Status)
    requires c.cursor <= |sent|
    ensures var d := Advance(c, sent, status); d.since == c.since && d.joined == c.joined && d.greeting == c.greeting
  {
  }

  // Whatever the readers do, every emission is sent, and the rest of the server is what the moves
  // say: where the history was cleared, what snapshots show, and who is subscribed since when.
  lemma {:induction false} RunRecords(moves: seq<Move>, name: nat)
    ensures var s := Run(moves);
            && s.sent == Emissions(moves) && s.cleared == ClearedAt(moves) && s.status == LatestStatus(moves)
            && (name in s.clients <==> SubscribedAfter(moves, name).Some?)
            && (name in s.clients ==> PlacedBy(s.clients[name], moves, SubscribedAfter(moves, name).value))
  {
    hide Advance;
    if moves != [] {
      var n := |moves| - 1;
      RunRecords(moves[..n], name);
      var s := Run(moves[..n]);
      if name in s.clients {
        AdvanceKeepsPlace(s.clients[name], s.sent, s.status);
      }
      var k := SubscribedAfter(moves, name);
      if k.Some? {
        assert moves[..n][..k.value] == moves[..k.value];
      }
    }
  }

  // Emissions and clears in any order, whatever the readers do: the history is the longest suffix
  // within both bounds of the events emitted since the last clear that are not oversized.
  lemma HistoryAlwaysExact(moves: seq<Move>)
    ensures ClearedAt(moves) <= |Emissions(moves)|
    ensures LongestFitting(Run(moves).history, Kept(Emissions(moves)[ClearedAt(moves)..]))
  {
    AlwaysFaithful(moves);
    RunRecords(moves, 0);
    HistoryExact(Emissions(moves)[ClearedAt(moves)..]);
  }

  // No gap and no duplicate, in every interleaving: a subscribed client's stream begins with a
  // snapshot and the longest suffix within the history's bounds of all events emitted between the
  // last clear and the subscription (oversized ones left out), and goes on with the events emitted
  // from then on.
  lemma NoGapNoDuplicate(moves: seq<Move>, name: nat)
    requires SubscribedAfter(moves, name).Some?
    ensures name in Run(moves).clients
    ensures var c := Run(moves).clients[name];
            var before := moves[..SubscribedAfter(moves, name).value];
            && c.joined == |Emissions(before)| && c.greeting == LatestStatus(before)
            && ClearedAt(before) <= |Emissions(before)|
            && LongestFitting(c.replay, Kept(Emissions(before)[ClearedAt(before)..]))
            && (if |c.out| < |Opening(c)| then c.out == Opening(c)[..|c.out|]
                else c.out[..|Opening(c)|] == Opening(c)
                     && Continuous(c.out[|Opening(c)|..], c.joined, Emissions(moves)))
  {
    hide Run, Emissions, ClearedAt, LatestStatus, SubscribedAfter, Opening, Continuous;
    AlwaysFaithful(moves);
    RunRecords(moves, name);
    var c, k := Run(moves).clients[name], SubscribedAfter(moves, name).value;
    EmissionsGrow(moves, k);
    assert Good(c, Emissions(moves));
    assert Emissions(moves)[c.since..c.joined] == Emissions(moves[..k])[c.since..];
    HistoryExact(Emissions(moves[..k])[c.since..]);
  }

  /* ---------- what continuity means ---------- */

  function Lives(sent: seq<Event>, from: nat, until: nat): (r: seq<Output>)
    requires from <= until <= |sent|
  {
    seq(until - from, i requires 0 <= i < until - from => Live(from + i, sent[from + i]))
  }

  predicate NoSnapshot(told: seq<Output>) {
    forall i | 0 <= i < |told| :: !told[i].Snapshot?
  }

  // A reader that was never overtaken has been told exactly the events from where it joined.
  lemma {:induction false} KeptUp(told: seq<Output>, joined: nat, sent: seq<Event>)
    requires joined <= |sent| && Continuous(told, joined, sent) && NoSnapshot(told)
    ensures joined + |told| <= |sent| && Reached(told, joined) == joined + |told|
    ensures told == Lives(sent, joined, joined + |told|)
  {
    if told != [] {
      var init := told[..|told| - 1];
      assert NoSnapshot(init) by {
        assert forall i | 0 <= i < |init| :: init[i] == told[i];
      }
      KeptUp(init, joined, sent);
      assert !told[|told| - 1].Snapshot?;
      assert init == [] || !init[|init| - 1].Snapshot?;
      assert told == init + [told[|told| - 1]];
    }
  }

  // Nothing is told twice or out of order.
  lemma {:induction false} ToldOnce(told: seq<Output>, joined: nat, sent: seq<Event>)
    requires Continuous(told, joined, sent)
    ensures joined <= Reached(told, joined)
    ensures forall i | 0 <= i < |told| && told[i].Live? :: joined <= told[i].at < Reached(told, joined)
    ensures forall i, j | 0 <= i < j < |told| && told[i].Live? && told[j].Live? :: told[i].at < told[j].at
  {
    if told != [] {
      var init := told[..|told| - 1];
      ToldOnce(init, joined, sent);
      assert forall i | 0 <= i < |init| :: told[i] == init[i];
    }
  }

  predicate Accounted(told: seq<Output>, k: nat) {
    exists i :: 0 <= i < |told| && Accounts(told[i], k)
  }

  // An output tells event k, or is a snapshot taken after it was sent.
  predicate Accounts(o: Output, k: nat) {
    match o
    case Live(at, _) => at == k
    case Snapshot(at, _) => k < at
    case Replayed(_) => false
  }

  // Every event up to the place reached was told, or a later snapshot made up for it.
  lemma {:induction false} NothingMissed(told: seq<Output>, joined: nat, sent: seq<Event>, k: nat)
    requires Continuous(told, joined, sent) && joined <= k < Reached(told, joined)
    ensures Accounted(told, k)
  {
    var init, last := told[..|told| - 1], told[|told| - 1];
    if k < Reached(init, joined) {
      NothingMissed(init, joined, sent, k);
      var i :| 0 <= i < |init| && Accounts(init[i], k);
      assert Accounts(told[i], k);
    } else if k == last.at {
      assert Accounts(told[|told| - 1], k);
    } else {
      assert Accounts(told[|told| - 2], k);
    }
  }

  /* ---------- what snapshots show ---------- */

  // At some instant of the run that many events had been sent and this was the data.
  predicate Instant(moves: seq<Move>, at: nat, status: Status) {
    exists k :: 0 <= k <= |moves| && |Run(moves[..k]).sent| == at && Run(moves[..k]).status == status
  }

  predicate TrueOutput(moves: seq<Move>, o: Output) {
    o.Snapshot? ==> Instant(moves, o.at, o.status)
  }

  predicate TrueClient(moves: seq<Move>, c: Client) {
    Instant(moves, c.joined, c.greeting) && forall i | 0 <= i < |c.out| :: TrueOutput(moves, c.out[i])
  }

  lemma LaterInstant(moves: seq<Move>, m: Move)
    ensures forall at, status :: Instant(moves, at, status) ==> Instant(moves + [m], at, status)
  {
    hide Run;
    forall at, status | Instant(moves, at, status) ensures Instant(moves + [m], at, status) {
      var k :| 0 <= k <= |moves| && |Run(moves[..k]).sent| == at && Run(moves[..k]).status == status;
      assert (moves + [m])[..k] == moves[..k];
    }
  }

  lemma ThisInstant(moves: seq<Move>)
    ensures Instant(moves, |Run(moves).sent|, Run(moves).status)
  {
    hide Run;
    assert moves[..|moves|] == moves;
  }

  lemma TrueLater(moves: seq<Move>, m: Move, c: Client)
    requires TrueClient(moves, c)
    ensures TrueClient(moves + [m], c)
  {
    hide Instant;
    LaterInstant(moves, m);
    forall i | 0 <= i < |c.out| ensures TrueOutput(moves + [m], c.out[i]) {
      assert TrueOutput(moves, c.out[i]);
    }
  }

  lemma TrueAdvance(moves: seq<Move>, c: Client, sent: seq<Event>, status: Status)
    requires c.cursor <= |sent| && TrueClient(moves, c) && Instant(moves, |sent|, status)
    ensures TrueClient(moves, Advance(c, sent, status))
  {
    hide Instant;
    var d := Advance(c, sent, status);
    forall i | 0 <= i < |d.out| ensures TrueOutput(moves, d.out[i]) {
      if i < |c.out| {
        assert d.out[i] == c.out[i] && TrueOutput(moves, c.out[i]);
      }
    }
  }

  lemma TrueStep(moves: seq<Move>, m: Move, name: nat)
    requires forall other | other in Run(moves).clients :: TrueClient(moves, Run(moves).clients[other])
    requires name in Moved(Run(moves), m).clients
    ensures TrueClient(moves + [m], Moved(Run(moves), m).clients[name])
  {
    hide Run, TrueClient, Advance, Instant;
    var s := Run(moves);
    ThisInstant(moves);
    LaterInstant(moves, m);
    if name in s.clients {
      TrueLater(moves, m, s.clients[name]);
      if m == Poll(name) {
        TrueAdvance(moves + [m], s.clients[name], s.sent, s.status);
      }
    } else {
      TrueStart(moves + [m], Moved(s, m).clients[name]);
    }
  }

  lemma TrueStart(moves: seq<Move>, c: Client)
    requires c.out == [] && Instant(moves, c.joined, c.greeting)
    ensures TrueClient(moves, c)
  {
  }

  // Every snapshot a client gets shows the data as it was at one instant, and that instant is its
  // place in the stream: all events before the place had been sent, and no later one.
  lemma {:induction false} SnapshotsAreConsistent(moves: seq<Move>, name: nat)
    requires name in Run(moves).clients
    ensures TrueClient(moves, Run(moves).clients[name])
  {
    hide TrueClient, Moved;
    if moves != [] {
      var init, m := moves[..|moves| - 1], moves[|moves| - 1];
      forall other | other in Run(init).clients ensures TrueClient(init, Run(init).clients[other]) {
        SnapshotsAreConsistent(init, other);
      }
      TrueStep(init, m, name);
      assert init + [m] == moves;
    }
  }

  // The data comes from runs of the session task.
  ghost predicate FromSession(moves: seq<Move>, digest: L.Identities) {
    forall i | 0 <= i < |moves| && moves[i].Change? :: exists ms :: moves[i].status == StatusAfter(ms, digest)
  }

  function StatusAfter(ms: seq<L.Move>, digest: L.Identities): Status {
    Status(L.Run(ms, digest).running, L.Run(ms, digest).view)
  }

  predicate ShowsSafely(status: Status) {
    && (status.view.table != [] ==> status.running && status.view.state == Established)
    && (status.view.state == Idle || status.view.state == Connect ==>
          status.view.table == [] && status.view.peerInfo.None?)
  }

  lemma {:induction false} StatusSafe(moves: seq<Move>, digest: L.Identities)
    requires FromSession(moves, digest)
    ensures ShowsSafely(Run(moves).status)
  {
    hide L.Run, Advance;
    if moves != [] {
      var n := |moves| - 1;
      FromSessionFront(moves, digest);
      StatusSafe(moves[..n], digest);
      if moves[n].Change? {
        var ms :| moves[n].status == StatusAfter(ms, digest);
        L.SessionIsSafe(ms, digest);
      }
    }
  }

  lemma FromSessionFront(moves: seq<Move>, digest: L.Identities)
    requires FromSession(moves, digest)
    ensures forall k | 0 <= k <= |moves| :: FromSession(moves[..k], digest)
  {
    hide StatusAfter;
    forall k | 0 <= k <= |moves| ensures FromSession(moves[..k], digest) {
      assert forall i | 0 <= i < k :: moves[..k][i] == moves[i];
    }
  }

  // No client is ever shown routes except as running and ESTABLISHED, or routes or a peer under
  // IDLE or CONNECT.
  lemma SnapshotsAreSafe(moves: seq<Move>, name: nat, digest: L.Identities, i: nat)
    requires FromSession(moves, digest) && name in Run(moves).clients
    requires i < |Run(moves).clients[name].out| && Run(moves).clients[name].out[i].Snapshot?
    ensures ShowsSafely(Run(moves).clients[name].out[i].status)
  {
    hide Run, FromSession;
    SnapshotsAreConsistent(moves, name);
    var o := Run(moves).clients[name].out[i];
    assert TrueOutput(moves, o);
    var k :| 0 <= k <= |moves| && |Run(moves[..k]).sent| == o.at && Run(moves[..k]).status == o.status;
    FromSessionFront(moves, digest);
    StatusSafe(moves[..k], digest);
  }

  /* ---------- catching up ---------- */

  // How many more polls bring a reader up to date when nothing else is emitted.
  function Behind(c: Client, sent: seq<Event>): nat
    requires c.cursor <= |sent|
  {
    (if |c.out| <= |c.replay| then |c.replay| + 1 - |c.out| else 0)
    + (if c.lagged then 1 else 0)
    + (if c.cursor + CAPACITY < |sent| then CAPACITY + 2 else |sent| - c.cursor)
  }

  function Polled(c: Client, sent: seq<Event>, status: Status, n: nat): (r: Client)
    requires c.cursor <= |sent|
    ensures r.cursor <= |sent|
    decreases n
  {
    if n == 0 then c else Polled(Advance(c, sent, status), sent, status, n - 1)
  }

  // While nothing is emitted, polling brings any reader to the end of the channel, the snapshot
  // answering a lag included.
  lemma {:induction false} CatchesUp(c: Client, sent: seq<Event>, status: Status)
    requires c.cursor <= |sent|
    ensures var d := Polled(c, sent, status, Behind(c, sent));
            d.cursor == |sent| && !d.lagged && |d.out| > |d.replay|
    decreases Behind(c, sent)
  {
    if Behind(c, sent) > 0 {
      CatchesUp(Advance(c, sent, status), sent, status);
    }
  }

  function Polls(name: nat, n: nat): seq<Move> {
    seq(n, _ => Poll(name))
  }

  lemma {:induction false} PolledRun(moves: seq<Move>, name: nat, n: nat)
    requires name in Run(moves).clients
    ensures var s, t := Run(moves), Run(moves + Polls(name, n));
            name in t.clients && t == s.(clients := s.clients[name := Polled(s.clients[name], s.sent, s.status, n)])
    decreases n
  {
    hide Advance;
    if n == 0 {
      assert moves + Polls(name, 0) == moves;
    } else {
      var s := Run(moves);
      var next := moves + [Poll(name)];
      assert next[..|moves|] == moves;
      assert next + Polls(name, n - 1) == moves + Polls(name, n);
      PolledRun(next, name, n - 1);
      var c := Run(moves + Polls(name, n)).clients[name];
      assert s.clients[name := Advance(s.clients[name], s.sent, s.status)][name := c] == s.clients[name := c];
    }
  }

  // In every run a subscribed client that goes on reading while nothing else happens is told of
  // everything emitted: its whole opening, then up to the last event.
  lemma ReadersCatchUp(moves: seq<Move>, name: nat) returns (n: nat)
    requires SubscribedAfter(moves, name).Some?
    ensures var t := Run(moves + Polls(name, n));
            && name in t.clients && |t.clients[name].out| >= |Opening(t.clients[name])|
            && Reached(t.clients[name].out[|Opening(t.clients[name])|..], t.clients[name].joined) == |Emissions(moves)|
  {
    hide Run, Polled, Opening, Emissions, Continuous, Reached, Polls;
    RunRecords(moves, name);
    var s := Run(moves);
    n := Behind(s.clients[name], s.sent);
    CatchesUp(s.clients[name], s.sent, s.status);
    PolledRun(moves, name, n);
    AlwaysFaithful(moves + Polls(name, n));
    var c := Run(moves + Polls(name, n)).clients[name];
    assert Good(c, s.sent);
    AtTheEnd(c, c.out[|Opening(c)|..], s.sent);
  }

  lemma AtTheEnd(c: Client, told: seq<Output>, sent: seq<Event>)
    requires Continuous(told, c.joined, sent) && CursorFits(c, told, sent) && !c.lagged && c.cursor == |sent|
    ensures Reached(told, c.joined) == |sent|
  {
    hide Reached;
  }

  // A client's stream is moved on by nobody but the client.
  lemma ReadersUndisturbed(moves: seq<Move>, m: Move, name: nat)
    requires SubscribedAfter(moves, name).Some? && m != Poll(name) && m != Leave(name)
    ensures name in Run(moves).clients && name in Run(moves + [m]).clients
    ensures Run(moves + [m]).clients[name] == Run(moves).clients[name]
  {
    RunRecords(moves, name);
    assert (moves + [m])[..|moves|] == moves;
  }
}
