/**
 * What the session task makes of the frames and timers it is given: in every run the connection is
 * the one that lives through them, it ends with the first fault, and its table is the frames'.
 */
module Conversations {
  import opened Base
  import opened OpenCodec
  import Rib
  import opened Session
  import opened Lifecycle

  /* ---------- what the present connection was given ---------- */

  // A move that ends what came before: the task starts, or takes up a connection.
  predicate Begins(w: World, m: Move) {
    (m.Launch? && w.phase.Absent? && ValidConfig(m.config)) || (m.TakeStream? && w.phase.Waiting?)
  }

  // What a move wakes the connection up for, if it is there to be woken.
  function WakeOf(m: Move): seq<Wake> {
    match m
    case Receive(f, now) => [Arrived(now, f)]
    case Tick(now) => [KeepaliveRings(now)]
    case _ => []
  }

  // The frames and timers that found the present or latest connection reading.
  function Wakes(moves: seq<Move>, digest: Identities): seq<Wake> {
    if moves == [] then []
    else
      var init, m := moves[..|moves| - 1], moves[|moves| - 1];
      var w := Run(init, digest);
      if Begins(w, m) then []
      else Wakes(init, digest) + if w.phase.Reading? then WakeOf(m) else []
  }

  // When its OPEN was written.
  function Start(moves: seq<Move>, digest: Identities): nat {
    if moves == [] then 0
    else
      var init, m := moves[..|moves| - 1], moves[|moves| - 1];
      if m.OpenWritten? && Run(init, digest).phase.Sending? then m.now else Start(init, digest)
  }

  // The configuration the task was started with.
  function Configured(moves: seq<Move>, digest: Identities): Config {
    if moves == [] then NO_CONFIG
    else
      var init, m := moves[..|moves| - 1], moves[|moves| - 1];
      if m.Launch? && Run(init, digest).phase.Absent? && ValidConfig(m.config) then m.config
      else Configured(init, digest)
  }

  // Every frame received, the last of them perhaps refused.
  function Heard(moves: seq<Move>, digest: Identities): seq<Frame> {
    FramesIn(Wakes(moves, digest))
  }

  function LifeOf(moves: seq<Move>, digest: Identities): Life {
    Lived(Configured(moves, digest), Start(moves, digest), Wakes(moves, digest))
  }

  /* ---------- every step ---------- */

  predicate OnConnection(p: Phase) {
    p.Reading? || p.Performing?
  }

  // The frames are those accepted, and none is waiting unless the connection is being left.
  predicate Follows(w: World, config: Config, start: nat, wakes: seq<Wake>) {
    var life := Lived(config, start, wakes);
    && w.config == config
    && (if OnConnection(w.phase) then life.fault.None? && w.phase.conn == life.conn && w.frames == FramesIn(wakes)
        else if w.phase.Entered? || w.phase.Sending? then w.frames == [] && wakes == []
        else Recorded(w.frames, wakes, life))
  }

  predicate Recorded(frames: seq<Frame>, wakes: seq<Wake>, life: Life) {
    var heard := FramesIn(wakes);
    frames == heard || (life.fault.Some? && heard != [] && frames == heard[..|heard| - 1])
  }

  lemma WakesSnoc(config: Config, start: nat, wakes: seq<Wake>, w: Wake)
    ensures Lived(config, start, wakes + [w]) == Advanced(config, Lived(config, start, wakes), w)
    ensures FramesIn(wakes + [w]) == FramesIn(wakes) + if w.Arrived? then [w.frame] else []
  {
    assert (wakes + [w])[..|wakes|] == wakes;
  }

  lemma ReceiveFollows(w: World, f: Frame, now: nat, config: Config, start: nat, wakes: seq<Wake>)
    requires Follows(w, config, start, wakes) && w.phase.Reading?
    ensures Follows(Received(w, f, now), config, start, wakes + [Arrived(now, f)])
    ensures var life := Lived(config, start, wakes + [Arrived(now, f)]);
            && (life.fault.Some? <==> Received(w, f, now).phase == Closing(false))
            && (life.fault.None? <==> Received(w, f, now).phase.Performing?)
  {
    hide OnFrame, Lived;
    WakesSnoc(config, start, wakes, Arrived(now, f));
    ReactFrame(config, w.phase.conn, now, f);
    AlwaysEnabled(w.phase.conn, Arrived(now, f));
    var heard := FramesIn(wakes + [Arrived(now, f)]);
    assert heard[..|heard| - 1] == FramesIn(wakes);
  }

  lemma TickFollows(w: World, now: nat, config: Config, start: nat, wakes: seq<Wake>, digest: Identities)
    requires Follows(w, config, start, wakes) && w.phase.Reading?
    ensures Follows(Moved(w, Tick(now), digest), config, start, wakes + [KeepaliveRings(now)])
  {
    hide Enabled;
    WakesSnoc(config, start, wakes, KeepaliveRings(now));
    assert FramesIn(wakes) + [] == FramesIn(wakes);
  }

  lemma OtherFollows(w: World, m: Move, config: Config, start: nat, wakes: seq<Wake>, digest: Identities)
    requires Follows(w, config, start, wakes) && !Begins(w, m) && !(m.OpenWritten? && w.phase.Sending?)
    requires !(w.phase.Reading? && (m.Receive? || m.Tick?))
    ensures Follows(Moved(w, m, digest), config, start, wakes)
  {
    hide Lived, OnFrame, React, Enabled, SectionsOf, Rib.Step;
  }

  lemma BeginFollows(w: World, m: Move, config: Config, start: nat, wakes: seq<Wake>, digest: Identities)
    requires Follows(w, config, start, wakes) && Begins(w, m)
    ensures Follows(Moved(w, m, digest), if m.Launch? then m.config else config, start, [])
  {
  }

  lemma OpenFollows(w: World, now: nat, config: Config, start: nat, wakes: seq<Wake>, digest: Identities)
    requires Follows(w, config, start, wakes) && w.phase.Sending?
    ensures Follows(Moved(w, OpenWritten(now), digest), config, now, wakes)
  {
  }

  lemma {:induction false} AlwaysFollows(moves: seq<Move>, digest: Identities)
    ensures Follows(Run(moves, digest), Configured(moves, digest), Start(moves, digest), Wakes(moves, digest))
  {
    hide Follows, Moved;
    if moves == [] {
      NothingFollows(digest);
    } else {
      var init, m := moves[..|moves| - 1], moves[|moves| - 1];
      AlwaysFollows(init, digest);
      var w, config, start, wakes :=
        Run(init, digest), Configured(init, digest), Start(init, digest), Wakes(init, digest);
      if Begins(w, m) {
        BeginFollows(w, m, config, start, wakes, digest);
      } else {
        assert wakes + [] == wakes;
        if m.OpenWritten? && w.phase.Sending? {
          OpenFollows(w, m.now, config, start, wakes, digest);
        } else if m.Receive? && w.phase.Reading? {
          ReceiveFollows(w, m.frame, m.now, config, start, wakes);
          ReceivingMoves(w, m.frame, m.now, digest);
        } else if m.Tick? && w.phase.Reading? {
          TickFollows(w, m.now, config, start, wakes, digest);
        } else {
          OtherFollows(w, m, config, start, wakes, digest);
        }
      }
    }
  }

  lemma NothingFollows(digest: Identities)
    ensures Follows(Run([], digest), NO_CONFIG, 0, [])
  {
  }

  lemma ReceivingMoves(w: World, f: Frame, now: nat, digest: Identities)
    requires w.phase.Reading?
    ensures Moved(w, Receive(f, now), digest) == Received(w, f, now)
  {
  }

  /* ---------- main results ---------- */

  // In every run the connection's variables are what its frames and timers make of them, from the
  // moment its OPEN was written, and no fault has come up while it is on.
  lemma ConnectionIsLived(moves: seq<Move>, digest: Identities)
    requires OnConnection(Run(moves, digest).phase)
    ensures LifeOf(moves, digest).fault.None? && Run(moves, digest).phase.conn == LifeOf(moves, digest).conn
    ensures Run(moves, digest).config == Configured(moves, digest)
    ensures Acceptable(Configured(moves, digest), Heard(moves, digest))
  {
    hide Run, Configured, Start, Wakes, Lived, Acceptable;
    AlwaysFollows(moves, digest);
    AcceptsExactly(Configured(moves, digest), Start(moves, digest), Wakes(moves, digest));
  }

  // A frame ends the connection exactly when it makes the conversation unacceptable; otherwise the
  // task goes on to do what the frame calls for.
  lemma FrameDecides(moves: seq<Move>, f: Frame, now: nat, digest: Identities)
    requires Run(moves, digest).phase.Reading?
    ensures var next := Run(moves + [Receive(f, now)], digest).phase;
            var goesOn := Acceptable(Configured(moves, digest), Heard(moves, digest) + [f]);
            (next.Performing? <==> goesOn) && (next == Closing(false) <==> !goesOn)
  {
    hide Run, Received, Configured, Start, Wakes, Lived, Acceptable, Follows;
    var config, start, wakes := Configured(moves, digest), Start(moves, digest), Wakes(moves, digest);
    AlwaysFollows(moves, digest);
    RunOn(moves, Receive(f, now), digest);
    ReceivingMoves(Run(moves, digest), f, now, digest);
    ReceiveFollows(Run(moves, digest), f, now, config, start, wakes);
    ConnectionIsLived(moves, digest);
    WakesSnoc(config, start, wakes, Arrived(now, f));
    AcceptsExactly(config, start, wakes);
    AcceptsExactly(config, start, wakes + [Arrived(now, f)]);
    NoHoldTimer(config, start, wakes, Arrived(now, f));
  }

  lemma NoHoldTimer(config: Config, start: nat, wakes: seq<Wake>, w: Wake)
    requires !w.HoldRings?
    ensures HoldRang(config, start, wakes + [w]) == HoldRang(config, start, wakes)
  {
    assert (wakes + [w])[..|wakes|] == wakes;
  }

  lemma RunOn(moves: seq<Move>, m: Move, digest: Identities)
    ensures Run(moves + [m], digest) == Moved(Run(moves, digest), m, digest)
  {
    assert (moves + [m])[..|moves|] == moves;
  }

  // What is shown at each point of a conversation.
  function StateFor(frames: seq<Frame>): StateName {
    if frames == [] then OpenSent else if |frames| == 1 then OpenConfirmed else Established
  }

  function PeerFor(frames: seq<Frame>): Option<OpenInfo> {
    if Settled(frames).Ok? then Some(Settled(frames).value) else None
  }

  // Whenever the connection is back to reading, the table is what the UPDATEs received leave when
  // all are decoded with the AS number width the OPEN settled; the state and the peer's information
  // are those of the frames received.
  lemma TableServesFrames(moves: seq<Move>, digest: Identities)
    requires Run(moves, digest).phase.Reading?
    ensures var w, heard := Run(moves, digest), Heard(moves, digest);
            && w.view.table == Rib.Survivors(OpsTold(Configured(moves, digest), heard, digest))
            && w.view.state == StateFor(heard)
            && w.view.peerInfo == PeerFor(heard)
  {
    hide Run, Configured, Start, Wakes, Lived, OpsTold, Guarded, ParseOpen, Agreed, AllOps;
    AlwaysFollows(moves, digest);
    AlwaysInv(moves, digest);
    Rib.TableIsSurvivors(OpsTold(Configured(moves, digest), Heard(moves, digest), digest));
  }

  // In every run: routes are stored and ESTABLISHED is shown only after the frames received began
  // with one good OPEN and an empty KEEPALIVE; peer information is that of the OPEN received.
  lemma ShownOnlyWhenHeard(moves: seq<Move>, digest: Identities)
    ensures var w, heard, config := Run(moves, digest), Heard(moves, digest), Configured(moves, digest);
            && (w.view.table != [] || w.view.state == Established ==>
                  |heard| >= 2 && GoodOpen(config, heard[0]) && IsKeepalive(heard[1]))
            && (w.view.peerInfo.Some? ==>
                  && heard != [] && GoodOpen(config, heard[0])
                  && ParseOpen(heard[0].body) == Ok(w.view.peerInfo.value))
  {
    hide Run, Configured, Start, Wakes, Lived, ParseOpen, Acceptable;
    AlwaysFollows(moves, digest);
    SessionIsSafe(moves, digest);
    AlwaysInv(moves, digest);
    QuietAtFirst(Run(moves, digest), digest);
  }

  lemma QuietAtFirst(w: World, digest: Identities)
    requires Inv(w, digest)
    ensures w.phase.Entered? || w.phase.Sending? ==>
              w.view.peerInfo.None? && w.view.table == [] && w.view.state != Established
  {
  }

  /* ---------- going on ---------- */

  function Performs(n: nat): seq<Move> {
    seq(n, _ => Perform)
  }

  // How many steps are left of what a frame calls for.
  function Remaining(w: World, digest: Identities): nat
    requires w.phase.Performing?
  {
    |w.phase.work| + EffectSteps(w.phase.effects, w.config.peerIp, digest) + 1
  }

  function EffectSteps(effects: seq<Effect>, peer: Bytes, digest: Identities): nat {
    if effects == [] then 0
    else
      (if effects[0].ApplyUpdate? then 1 + |SectionsOf(effects[0].update, peer, digest)| else 1)
      + EffectSteps(effects[1..], peer, digest)
  }

  // A task left to itself finishes what a frame calls for and reads on with the same connection.
  lemma {:induction false} ReadsOn(moves: seq<Move>, digest: Identities)
    requires Run(moves, digest).phase.Performing?
    ensures var w := Run(moves, digest);
            Run(moves + Performs(Remaining(w, digest)), digest).phase == Reading(w.phase.conn)
    decreases Remaining(Run(moves, digest), digest)
  {
    hide Run, SectionsOf, Rib.Step;
    var w := Run(moves, digest);
    var next := moves + [Perform];
    RunOn(moves, Perform, digest);
    var n := Remaining(w, digest);
    assert next + Performs(n - 1) == moves + Performs(n);
    if w.phase.work == [] && w.phase.effects == [] {
      assert Performs(0) == [] && next + [] == next;
    } else {
      ReadsOn(next, digest);
    }
  }

  lemma RunOnFour(moves: seq<Move>, a: Move, b: Move, c: Move, d: Move, digest: Identities)
    ensures var w := Moved(Moved(Run(moves, digest), a, digest), b, digest);
            Run(moves + [a, b, c, d], digest) == Moved(Moved(w, c, digest), d, digest)
  {
    hide Moved, Run;
    RunOn(moves, a, digest);
    RunOn(moves + [a], b, digest);
    RunOn(moves + [a] + [b], c, digest);
    RunOn(moves + [a] + [b] + [c], d, digest);
    assert moves + [a] + [b] + [c] + [d] == moves + [a, b, c, d];
  }

  // From the top of its loop a task that finds its peer begins a new conversation.
  lemma ConnectionBegins(moves: seq<Move>, now: nat, digest: Identities)
    requires Run(moves, digest).phase.Top?
    ensures var w := Run(moves + [ReportConnect, TakeStream, ReportOpenSent, OpenWritten(now)], digest);
            && w.phase == Reading(Opened(w.config, now)) && w.config == Run(moves, digest).config
            && w.frames == [] && w.view == View(OpenSent, None, [])
  {
    hide Run, Opened;
    AlwaysInv(moves, digest);
    RunOnFour(moves, ReportConnect, TakeStream, ReportOpenSent, OpenWritten(now), digest);
  }

  // A task starts with any valid configuration and no other, and only one runs at a time.
  lemma TaskStarts(moves: seq<Move>, config: Config, digest: Identities)
    ensures var w, next := Run(moves, digest), Run(moves + [Launch(config)], digest);
            if !w.running && ValidConfig(config) then
              next.running && next.phase == Top && next.config == config && next.view == QUIET && next.frames == []
            else next == w
  {
    hide Run, Acceptable, Agreed, Target, Outcome, Guarded;
    AlwaysInv(moves, digest);
    RunOn(moves, Launch(config), digest);
  }

  // Where a task waits for the network inside a connection.
  predicate InConnection(p: Phase) {
    p.Entered? || p.Sending? || p.Reading? || (p.Performing? && p.work == [] && NextSends(p.effects))
  }

  predicate NextSends(effects: seq<Effect>) {
    effects != [] && effects[0].SendKeepalive?
  }

  lemma LeavesConnection(w: World, m: Move, digest: Identities)
    requires InConnection(w.phase) && (m.Break? || m.Halt?)
    ensures Moved(w, m, digest) == w.(phase := Closing(m.Halt?))
  {
  }

  lemma CleansUp(w: World, digest: Identities)
    requires w.phase.Closing?
    ensures Moved(Moved(w, Wipe, digest), ReportIdle, digest)
         == w.(view := QUIET, phase := if w.phase.halted then Ending else Resting)
  {
  }

  lemma TriesAgain(w: World, digest: Identities)
    ensures w.phase.Resting? ==> Moved(w, Retry, digest) == w.(phase := Top)
    ensures w.phase.Ending? ==> Moved(w, Finish, digest) == w.(running := false, view := QUIET, phase := Absent)
  {
  }

  lemma RunningInside(w: World, digest: Identities)
    requires Inv(w, digest) && InConnection(w.phase)
    ensures w.running
  {
    hide Acceptable, Agreed, Target, Outcome, Guarded;
  }

  // Nothing breaks or stops anywhere else: an UPDATE being applied and a connection being wiped are
  // not interrupted.
  lemma InterruptedOnlyThere(moves: seq<Move>, digest: Identities)
    requires !InConnection(Run(moves, digest).phase)
    ensures Run(moves + [Break], digest) == Run(moves, digest)
    ensures !Run(moves, digest).phase.Waiting? && !Run(moves, digest).phase.Resting? ==>
              Run(moves + [Halt], digest) == Run(moves, digest)
  {
    hide Run;
    RunOn(moves, Break, digest);
    RunOn(moves, Halt, digest);
  }

  // A connection that breaks is wiped, shown as IDLE, and tried again by the same task.
  lemma BreakIsRetried(moves: seq<Move>, digest: Identities)
    requires InConnection(Run(moves, digest).phase)
    ensures var w := Run(moves + [Break, Wipe, ReportIdle, Retry], digest);
            && w.phase == Top && w.running && w.view == QUIET && w.config == Run(moves, digest).config
  {
    hide Run, Moved, Inv, InConnection;
    var w := Run(moves, digest);
    AlwaysInv(moves, digest);
    RunningInside(w, digest);
    RunOnFour(moves, Break, Wipe, ReportIdle, Retry, digest);
    LeavesConnection(w, Break, digest);
    CleansUp(w.(phase := Closing(false)), digest);
    TriesAgain(w.(phase := Resting, view := QUIET), digest);
  }

  // A refused frame is the same to the task as a broken connection.
  lemma RefusalIsRetried(moves: seq<Move>, f: Frame, now: nat, digest: Identities)
    requires Run(moves, digest).phase.Reading?
    requires !Acceptable(Configured(moves, digest), Heard(moves, digest) + [f])
    ensures var w := Run(moves + [Receive(f, now), Wipe, ReportIdle, Retry], digest);
            && w.phase == Top && w.running && w.view == QUIET && w.config == Run(moves, digest).config
  {
    hide Run, Moved, Inv, Received, Configured, Heard, Acceptable;
    var w := Run(moves, digest);
    var left := Received(w, f, now);
    AlwaysInv(moves, digest);
    RunningInside(w, digest);
    FrameDecides(moves, f, now, digest);
    RunOn(moves, Receive(f, now), digest);
    ReceivedKeepsRest(w, f, now);
    ReceivingMoves(w, f, now, digest);
    RunOnFour(moves, Receive(f, now), Wipe, ReportIdle, Retry, digest);
    CleansUp(left, digest);
    TriesAgain(left.(phase := Resting, view := QUIET), digest);
  }

  lemma ReceivedKeepsRest(w: World, f: Frame, now: nat)
    requires w.phase.Reading?
    ensures Received(w, f, now).running == w.running && Received(w, f, now).config == w.config
  {
  }

  // A stop request during a connection wipes it, shows IDLE, and ends the task.
  lemma HaltEndsTask(moves: seq<Move>, digest: Identities)
    requires InConnection(Run(moves, digest).phase)
    ensures var w := Run(moves + [Halt, Wipe, ReportIdle, Finish], digest);
            w.phase == Absent && !w.running && w.view == QUIET
  {
    hide Run, Moved, InConnection;
    var w := Run(moves, digest);
    RunOnFour(moves, Halt, Wipe, ReportIdle, Finish, digest);
    LeavesConnection(w, Halt, digest);
    CleansUp(w.(phase := Closing(true)), digest);
    TriesAgain(w.(phase := Ending, view := QUIET), digest);
  }

  // A stop request outside a connection ends the task straight away.
  lemma HaltEndsWaiting(moves: seq<Move>, digest: Identities)
    requires Run(moves, digest).phase.Waiting? || Run(moves, digest).phase.Resting?
    ensures var w := Run(moves + [Halt] + [Finish], digest);
            w.phase == Absent && !w.running && w.view == QUIET
  {
    hide Run;
    RunOn(moves, Halt, digest);
    RunOn(moves + [Halt], Finish, digest);
  }

  // Where the task was stopped while it runs.
  predicate HaltedAt(moves: seq<Move>, i: nat, digest: Identities) {
    && i < |moves| && moves[i].Halt?
    && forall k | i < k <= |moves| :: !Run(moves[..k], digest).phase.Absent?
  }

  predicate Stopping(p: Phase) {
    p.Ending? || (p.Closing? && p.halted) || (p.Wiped? && p.halted)
  }

  // The task ends only when it was asked to.
  lemma {:induction false} EndsOnlyWhenHalted(moves: seq<Move>, digest: Identities) returns (i: nat)
    requires Stopping(Run(moves, digest).phase)
    ensures HaltedAt(moves, i, digest)
  {
    hide Received, PerformNext;
    var n := |moves| - 1;
    var w := Run(moves[..n], digest);
    assert moves[..|moves|] == moves;
    if Stopping(w.phase) {
      i := EndsOnlyWhenHalted(moves[..n], digest);
      forall k | i < k <= |moves| ensures !Run(moves[..k], digest).phase.Absent? {
        if k <= n {
          assert moves[..n][..k] == moves[..k];
        }
      }
    } else {
      i := n;
      NoStopUnasked(w, moves[n], digest);
    }
  }

  lemma NoStopUnasked(w: World, m: Move, digest: Identities)
    requires !Stopping(w.phase) && Stopping(Moved(w, m, digest).phase)
    ensures m.Halt?
  {
    hide OnFrame, SectionsOf;
  }
}
