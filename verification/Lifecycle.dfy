/**
 * The session task from start to stop: connecting, talking, tearing down and connecting again, as
 * the steps other threads can see between two critical sections.
 */
module Lifecycle {
  import opened Base
  import opened Attributes
  import opened OpenCodec
  import opened UpdateCodec
  import opened Rib
  import opened RibUpdate
  import opened Session

  // One critical section of applying an UPDATE: sharing what all its routes have in common,
  // entering a group of routes, announcing or withdrawing one route, letting the group's name go,
  // and in the end the shared parts.
  datatype Section =
    | Share(asPath: seq<nat>, communities: seq<Community>, peer: Bytes)
    | Enter(group: Label)
    | Do(op: Op)
    | Leave
    | Release

  function Dos(ops: seq<Op>): (work: seq<Section>)
    ensures |work| == |ops|
  {
    seq(|ops|, i requires 0 <= i < |ops| => Do(ops[i]))
  }

  function KindSections(c: Context, announce: bool, groups: map<Label, Nlri>, n: nat): seq<Section>
    requires n <= 4
  {
    if n == 0 then []
    else
      KindSections(c, announce, groups, n - 1)
      + if LABELS[n - 1] in groups then
          [Enter(LABELS[n - 1])] + Dos(GroupOps(c, announce, LABELS[n - 1], groups[LABELS[n - 1]])) + [Leave]
        else []
  }

  function SectionsOf(u: Update, peer: Bytes, digest: Identity -> Id): seq<Section> {
    var c := ContextOf(u, peer, digest);
    [Share(c.asPath, c.communities, peer)] + KindSections(c, true, u.announce, 4)
    + KindSections(c, false, u.withdraw, 4) + [Release]
  }

  // The route operations among some sections.
  function OpsIn(work: seq<Section>): seq<Op> {
    if work == [] then [] else (if work[0].Do? then [work[0].op] else []) + OpsIn(work[1..])
  }

  // Where the session task is. A connection is reading, or performing what the last frame called for: the
  // effects still to come, and before them what is left of an UPDATE being applied.
  datatype Phase =
    | Absent
    | Top
    | Waiting
    | Entered
    | Sending
    | Reading(conn: Conn)
    | Performing(conn: Conn, effects: seq<Effect>, work: seq<Section>)
    | Closing(halted: bool)
    | Wiped(halted: bool)
    | Resting
    | Ending

  // What other threads see of a session.
  datatype View = View(state: StateName, peerInfo: Option<OpenInfo>, table: seq<Route>)

  // frames records what the current or latest connection accepted.
  datatype World = World(running: bool, view: View, phase: Phase, config: Config, frames: seq<Frame>)

  datatype Move =
    | Launch(config: Config)
    | Reset
    | ReportConnect
    | TakeStream
    | ReportOpenSent
    | OpenWritten(now: nat)
    | Receive(frame: Frame, now: nat)
    | Tick(now: nat)
    | Perform
    | Duplicate
    | Break
    | Halt
    | Wipe
    | ReportIdle
    | Retry
    | Finish

  const QUIET := View(Idle, None, [])

  // Digests that turn route identities into ids.
  type Identities = Identity -> Id

  function Performed(v: View, e: Effect): View {
    match e
    case SetPeerInfo(info) => v.(peerInfo := Some(info))
    case SetState(state) => v.(state := state)
    case _ => v
  }

  // A connection can be broken or halted where it waits for the network or has not begun, and
  // nowhere else: before its first step, while reading, and while writing its OPEN or a KEEPALIVE.
  predicate AtNetwork(p: Phase) {
    match p
    case Entered => true
    case Sending => true
    case Reading(_) => true
    case Performing(_, effects, work) => work == [] && effects != [] && effects[0].SendKeepalive?
    case _ => false
  }

  function PerformNext(w: World, digest: Identity -> Id): World
    requires w.phase.Performing?
  {
    var Performing(conn, effects, work) := w.phase;
    if work != [] then
      var view := if work[0].Do? then w.view.(table := Step(w.view.table, work[0].op)) else w.view;
      w.(view := view, phase := Performing(conn, effects, work[1..]))
    else if effects == [] then w.(phase := Reading(conn))
    else if effects[0].ApplyUpdate? then
      w.(phase := Performing(conn, effects[1..], SectionsOf(effects[0].update, w.config.peerIp, digest)))
    else w.(view := Performed(w.view, effects[0]), phase := Performing(conn, effects[1..], []))
  }

  function Received(w: World, f: Frame, now: nat): World
    requires w.phase.Reading?
  {
    match OnFrame(w.config, w.phase.conn, f, now)
    case Failed(_) => w.(phase := Closing(false))
    case Going(conn, effects) => w.(phase := Performing(conn, effects, []), frames := w.frames + [f])
  }

  // One step; a step that the session is not at leaves everything as it is.
  function Moved(w: World, m: Move, digest: Identity -> Id): World {
    match m
    case Launch(config) =>
      if w.phase.Absent? && ValidConfig(config) then
        World(true, w.view.(peerInfo := None, table := []), Top, config, [])
      else w
    case Reset => if w.phase.Absent? then w.(running := false, view := QUIET) else w
    case ReportConnect => if w.phase.Top? then w.(view := w.view.(state := Connect), phase := Waiting) else w
    case TakeStream => if w.phase.Waiting? then w.(phase := Entered, frames := []) else w
    case ReportOpenSent =>
      if w.phase.Entered? then w.(view := w.view.(state := OpenSent), phase := Sending) else w
    case OpenWritten(now) => if w.phase.Sending? then w.(phase := Reading(Opened(w.config, now))) else w
    case Receive(f, now) => if w.phase.Reading? then Received(w, f, now) else w
    case Tick(now) =>
      if w.phase.Reading? && Enabled(w.phase.conn, KeepaliveRings(now)) then
        w.(phase := Reading(React(w.config, w.phase.conn, KeepaliveRings(now)).conn))
      else w
    case Perform => if w.phase.Performing? then PerformNext(w, digest) else w
    case Duplicate => w
    case Break => if AtNetwork(w.phase) then w.(phase := Closing(false)) else w
    case Halt =>
      if AtNetwork(w.phase) then w.(phase := Closing(true))
      else if w.phase.Waiting? || w.phase.Resting? then w.(phase := Ending)
      else w
    case Wipe =>
      if w.phase.Closing? then w.(view := w.view.(peerInfo := None, table := []), phase := Wiped(w.phase.halted))
      else w
    case ReportIdle =>
      if w.phase.Wiped? then
        w.(view := w.view.(state := Idle), phase := if w.phase.halted then Ending else Resting)
      else w
    case Retry => if w.phase.Resting? then w.(phase := Top) else w
    case Finish => if w.phase.Ending? then w.(running := false, view := QUIET, phase := Absent) else w
  }

  const NO_CONFIG := Config(0, [], [], 0, 0, 0, Finite(0.0), Finite(0.0), Finite(0.0))

  function Run(moves: seq<Move>, digest: Identity -> Id): World {
    if moves == [] then World(false, QUIET, Absent, NO_CONFIG, [])
    else Moved(Run(moves[..|moves| - 1], digest), moves[|moves| - 1], digest)
  }

  /* ---------- what a conversation amounts to ---------- */

  function AllOps(updates: seq<Update>, peer: Bytes, digest: Identity -> Id): seq<Op> {
    if updates == [] then []
    else AllOps(updates[..|updates| - 1], peer, digest) + OpsOf(updates[|updates| - 1], peer, digest)
  }

  function OpsTold(config: Config, frames: seq<Frame>, digest: Identity -> Id): seq<Op> {
    AllOps(Told(frames, Width(Settled(frames))), config.peerIp, digest)
  }

  // What should be seen once all that the frames call for is done.
  function Target(config: Config, frames: seq<Frame>, digest: Identity -> Id): View {
    View(if frames == [] then OpenSent else if |frames| == 1 then OpenConfirmed else Established,
         if Settled(frames).Ok? then Some(Settled(frames).value) else None,
         Apply([], OpsTold(config, frames, digest)))
  }

  // What will be seen once the effects are performed.
  function Outcome(v: View, effects: seq<Effect>, peer: Bytes, digest: Identity -> Id): View
    decreases |effects|
  {
    if effects == [] then v
    else if effects[0].ApplyUpdate? then
      Outcome(v.(table := Apply(v.table, OpsOf(effects[0].update, peer, digest))), effects[1..], peer, digest)
    else Outcome(Performed(v, effects[0]), effects[1..], peer, digest)
  }

  /* ---------- the invariant ---------- */

  predicate Conversing(w: World, c: Conn) {
    w.running && w.view.state != Connect && Acceptable(w.config, w.frames) && Agreed(w.config, c, w.frames)
  }

  // Only what the frames so far justify is still to be reported.
  predicate Justified(effects: seq<Effect>, frames: seq<Frame>) {
    forall i | 0 <= i < |effects| :: EffectJustified(effects[i], frames)
  }

  predicate EffectJustified(e: Effect, frames: seq<Frame>) {
    match e
    case SetPeerInfo(info) => frames != [] && Settled(frames) == Ok(info)
    case SetState(state) => if |frames| == 1 then state == OpenConfirmed else |frames| >= 2 && state == Established
    case _ => true
  }

  predicate SomethingToApply(effects: seq<Effect>) {
    exists i :: 0 <= i < |effects| && effects[i].ApplyUpdate?
  }

  // Routes are there, or about to come, only once the conversation has got to that point.
  predicate Guarded(w: World, effects: seq<Effect>, work: seq<Section>) {
    && (w.view.table != [] || work != [] || SomethingToApply(effects) ==> w.view.state == Established)
    && Justified(effects, w.frames)
    && (w.view.state == Established ==> |w.frames| >= 2)
    && w.view.state != Idle && (w.view.state == Connect ==> w.view.peerInfo.None?)
    && (w.view.peerInfo.Some? ==> w.frames != [] && Settled(w.frames) == Ok(w.view.peerInfo.value))
  }

  predicate Inv(w: World, digest: Identity -> Id) {
    match w.phase
    case Absent => !w.running && w.view == QUIET
    case Top => w.running && w.view == QUIET
    case Waiting => w.running && w.view == QUIET.(state := Connect)
    case Entered => w.running && w.view == QUIET.(state := Connect) && w.frames == []
    case Sending => w.running && w.view == QUIET.(state := OpenSent) && w.frames == []
    case Reading(c) =>
      Conversing(w, c) && Guarded(w, [], []) && w.view == Target(w.config, w.frames, digest)
    case Performing(c, effects, work) =>
      Conversing(w, c) && Guarded(w, effects, work)
      && Outcome(w.view.(table := Apply(w.view.table, OpsIn(work))), effects, w.config.peerIp, digest)
         == Target(w.config, w.frames, digest)
    case Closing(_) => w.running && Acceptable(w.config, w.frames) && Guarded(w, [], [])
    case Wiped(_) =>
      && w.running && Acceptable(w.config, w.frames) && Guarded(w, [], [])
      && w.view.peerInfo.None? && w.view.table == []
    case Resting => w.running && w.view == QUIET
    case Ending => w.running && (w.view == QUIET || w.view == QUIET.(state := Connect))
  }

  /* ---------- one frame ---------- */

  lemma OutcomeFew(v: View, info: OpenInfo, at: nat, u: Update, peer: Bytes, digest: Identity -> Id)
    ensures Outcome(v, [], peer, digest) == v
    ensures Outcome(v, [SetPeerInfo(info), SendKeepalive(at), SetState(OpenConfirmed)], peer, digest)
         == v.(peerInfo := Some(info), state := OpenConfirmed)
    ensures Outcome(v, [SetState(Established)], peer, digest) == v.(state := Established)
    ensures Outcome(v, [ApplyUpdate(u)], peer, digest) == v.(table := Apply(v.table, OpsOf(u, peer, digest)))
  {
    hide Apply, OpsOf;
    var all := [SetPeerInfo(info), SendKeepalive(at), SetState(OpenConfirmed)];
    assert all[1..] == [SendKeepalive(at), SetState(OpenConfirmed)];
    assert all[1..][1..] == [SetState(OpenConfirmed)];
    assert [SetState(OpenConfirmed)][1..] == [];
    var v1 := v.(peerInfo := Some(info));
    assert Outcome(v1, [SendKeepalive(at), SetState(OpenConfirmed)], peer, digest)
        == Outcome(v1, [SetState(OpenConfirmed)], peer, digest) == v1.(state := OpenConfirmed);
    assert [SetState(Established)][1..] == [] && [ApplyUpdate(u)][1..] == [];
  }

  function FrameOps(config: Config, f: Frame, width: nat, digest: Identity -> Id): seq<Op> {
    if IsUpdate(f, width) then OpsOf(ParseUpdate(f.body, width).value, config.peerIp, digest) else []
  }

  lemma OpsToldNext(config: Config, frames: seq<Frame>, f: Frame, digest: Identity -> Id)
    requires frames != []
    ensures OpsTold(config, frames + [f], digest)
         == OpsTold(config, frames, digest) + FrameOps(config, f, Width(Settled(frames)), digest)
  {
    hide OpsOf, Told, ParseUpdate;
    var width := Width(Settled(frames));
    SettledFirst(frames, f);
    ToldSnoc(frames, f, width);
    ToldSingle(f, width);
    var before := Told(frames, width);
    if IsUpdate(f, width) {
      var u := ParseUpdate(f.body, width).value;
      assert (before + [u])[..|before|] == before;
    } else {
      assert before + [] == before;
      assert OpsTold(config, frames, digest) + [] == OpsTold(config, frames, digest);
    }
  }

  lemma FirstTold(config: Config, f: Frame, digest: Identity -> Id)
    requires f.kind == OPEN
    ensures OpsTold(config, [f], digest) == OpsTold(config, [], digest) == []
  {
    hide OpsOf, ParseUpdate;
    ToldSingle(f, Width(Settled([f])));
  }

  lemma OpenMeets(config: Config, c: Conn, f: Frame, now: nat, digest: Identity -> Id)
    requires Acceptable(config, []) && Agreed(config, c, []) && OnFrame(config, c, f, now).Going?
    ensures Outcome(Target(config, [], digest), OnFrame(config, c, f, now).effects, config.peerIp, digest)
         == Target(config, [f], digest)
    ensures !SomethingToApply(OnFrame(config, c, f, now).effects) && Justified(OnFrame(config, c, f, now).effects, [f])
  {
    hide ParseOpen, ParseUpdate, Told, AllOps, OpsTold, Outcome;
    FirstTold(config, f, digest);
    OutcomeFew(Target(config, [], digest), ParseOpen(f.body).value, now, Update(map[], map[], [], []), config.peerIp,
               digest);
  }

  // Doing what an accepted frame calls for brings what is seen up to date with it.
  lemma FrameMeets(config: Config, c: Conn, frames: seq<Frame>, f: Frame, now: nat, digest: Identity -> Id)
    requires frames != [] && Acceptable(config, frames) && Agreed(config, c, frames)
    requires OnFrame(config, c, f, now).Going?
    ensures Outcome(Target(config, frames, digest), OnFrame(config, c, f, now).effects, config.peerIp, digest)
         == Target(config, frames + [f], digest)
    ensures SomethingToApply(OnFrame(config, c, f, now).effects) ==> |frames| >= 2
    ensures Justified(OnFrame(config, c, f, now).effects, frames + [f])
  {
    hide ParseOpen, ParseUpdate, OpsTold, Outcome, Acceptable, OpsOf, Apply, Settled;
    var u := if IsUpdate(f, c.asnLen) then ParseUpdate(f.body, c.asnLen).value else Update(map[], map[], [], []);
    var v := Target(config, frames, digest);
    OutcomeFew(v, OpenInfo(0, 0, [], false), now, u, config.peerIp, digest);
    SettledFirst(frames, f);
    OpsToldNext(config, frames, f, digest);
    if IsUpdate(f, c.asnLen) {
      ApplyAppend([], OpsTold(config, frames, digest), OpsOf(u, config.peerIp, digest));
    } else {
      assert OpsTold(config, frames, digest) + [] == OpsTold(config, frames, digest);
    }
  }

  /* ---------- every step keeps the invariant ---------- */

  lemma ReceiveKeeps(w: World, f: Frame, now: nat, digest: Identity -> Id)
    requires Inv(w, digest) && w.phase.Reading?
    ensures Inv(Received(w, f, now), digest)
  {
    hide OnFrame, Acceptable, Target, Outcome, Settled, Agreed, SomethingToApply, Justified;
    var c := w.phase.conn;
    FrameAccepted(w.config, c, w.frames, f, now);
    if OnFrame(w.config, c, f, now).Going? {
      AgreedShape(w.config, c, w.frames);
      TargetShape(w.config, w.frames, digest);
      NothingApplied(w.view.table);
      if w.frames == [] {
        assert [] + [f] == [f];
        OpenMeets(w.config, c, f, now, digest);
        SettledNothing();
      } else {
        FrameMeets(w.config, c, w.frames, f, now, digest);
        SettledFirst(w.frames, f);
      }
    }
  }

  lemma AgreedShape(config: Config, c: Conn, frames: seq<Frame>)
    requires Acceptable(config, frames) && Agreed(config, c, frames)
    ensures c.established <==> |frames| > 1
  {
  }

  lemma TargetShape(config: Config, frames: seq<Frame>, digest: Identity -> Id)
    ensures Target(config, frames, digest).state == Established <==> |frames| >= 2
  {
  }

  lemma NothingApplied(rows: seq<Route>)
    ensures Apply(rows, []) == rows
  {
  }

  lemma SettledNothing()
    ensures Settled([]).Err?
  {
  }

  lemma ApplyFirst(rows: seq<Route>, ops: seq<Op>)
    requires ops != []
    ensures Apply(rows, ops) == Apply(Step(rows, ops[0]), ops[1..])
  {
    ApplyAppend(rows, [ops[0]], ops[1..]);
    OneOp(rows, ops[0]);
    assert ops == [ops[0]] + ops[1..];
  }

  lemma FewerToApply(effects: seq<Effect>)
    requires effects != []
    ensures SomethingToApply(effects[1..]) ==> SomethingToApply(effects)
    ensures effects[0].ApplyUpdate? ==> SomethingToApply(effects)
    ensures forall frames: seq<Frame> | Justified(effects, frames) ::
              EffectJustified(effects[0], frames) && Justified(effects[1..], frames)
  {
    if SomethingToApply(effects[1..]) {
      var i :| 0 <= i < |effects| - 1 && effects[1..][i].ApplyUpdate?;
      assert effects[i + 1].ApplyUpdate?;
    }
  }

  lemma {:induction false} OpsInAppend(a: seq<Section>, b: seq<Section>)
    ensures OpsIn(a + b) == OpsIn(a) + OpsIn(b)
  {
    if a == [] {
      assert a + b == b;
    } else {
      assert (a + b)[1..] == a[1..] + b;
      OpsInAppend(a[1..], b);
      Associate(if a[0].Do? then [a[0].op] else [], OpsIn(a[1..]), OpsIn(b));
    }
  }

  lemma {:induction false} OpsInDos(ops: seq<Op>)
    ensures OpsIn(Dos(ops)) == ops
  {
    if ops != [] {
      OpsInDos(ops[1..]);
      assert Dos(ops)[1..] == Dos(ops[1..]);
      assert ops == [ops[0]] + ops[1..];
    }
  }

  lemma OpsInOne(s: Section)
    ensures OpsIn([s]) == if s.Do? then [s.op] else []
  {
    assert [s][1..] == [];
  }

  lemma {:induction false} KindSectionsDo(c: Context, announce: bool, groups: map<Label, Nlri>, n: nat)
    requires n <= 4
    ensures OpsIn(KindSections(c, announce, groups, n)) == KindOps(c, announce, groups, n)
  {
    hide GroupOps, OpsIn, Dos;
    if n == 0 {
      NoSections();
    } else {
      var before := KindSections(c, announce, groups, n - 1);
      KindSectionsDo(c, announce, groups, n - 1);
      if LABELS[n - 1] in groups {
        var ops := GroupOps(c, announce, LABELS[n - 1], groups[LABELS[n - 1]]);
        OpsInAppend([Enter(LABELS[n - 1])], Dos(ops));
        OpsInAppend([Enter(LABELS[n - 1])] + Dos(ops), [Leave]);
        OpsInAppend(before, [Enter(LABELS[n - 1])] + Dos(ops) + [Leave]);
        OpsInOne(Enter(LABELS[n - 1]));
        OpsInOne(Leave);
        OpsInDos(ops);
        assert [] + ops + [] == ops;
      } else {
        assert before + [] == before;
        assert KindOps(c, announce, groups, n - 1) + [] == KindOps(c, announce, groups, n - 1);
      }
    }
  }

  lemma NoSections()
    ensures OpsIn([]) == []
  {
  }

  // The critical sections of an UPDATE do exactly its operations, in order.
  lemma SectionsDo(u: Update, peer: Bytes, digest: Identity -> Id)
    ensures OpsIn(SectionsOf(u, peer, digest)) == OpsOf(u, peer, digest)
  {
    hide KindSections, KindOps, OpsIn;
    var c := ContextOf(u, peer, digest);
    var share := [Share(c.asPath, c.communities, peer)];
    var up, down := KindSections(c, true, u.announce, 4), KindSections(c, false, u.withdraw, 4);
    KindSectionsDo(c, true, u.announce, 4);
    KindSectionsDo(c, false, u.withdraw, 4);
    OpsInAppend(share + up + down, [Release]);
    OpsInAppend(share + up, down);
    OpsInAppend(share, up);
    OpsInOne(share[0]);
    OpsInOne(Release);
    SameWithout(OpsIn(up), OpsIn(down));
  }

  lemma SameWithout<T>(a: seq<T>, b: seq<T>)
    ensures [] + a + b + [] == a + b
  {
  }

  lemma PerformSectionKeeps(w: World, digest: Identity -> Id)
    requires Inv(w, digest) && w.phase.Performing? && w.phase.work != []
    ensures Inv(PerformNext(w, digest), digest)
  {
    hide Acceptable, Agreed, Target, Outcome, Justified, SomethingToApply, Apply, Step, OpsIn;
    SectionDone(w.view.table, w.phase.work);
  }

  lemma SectionDone(rows: seq<Route>, work: seq<Section>)
    requires work != []
    ensures Apply(rows, OpsIn(work))
         == Apply(if work[0].Do? then Step(rows, work[0].op) else rows, OpsIn(work[1..]))
  {
    hide Apply, Step;
    if work[0].Do? {
      ApplyFirst(rows, OpsIn(work));
      assert OpsIn(work)[1..] == OpsIn(work[1..]);
    } else {
      assert [] + OpsIn(work[1..]) == OpsIn(work[1..]);
    }
  }

  lemma PerformEffectKeeps(w: World, digest: Identity -> Id)
    requires Inv(w, digest) && w.phase.Performing? && w.phase.work == [] && w.phase.effects != []
    ensures Inv(PerformNext(w, digest), digest)
  {
    hide Acceptable, Agreed, Target, Justified, SomethingToApply, Apply, OpsOf, Settled, SectionsOf, OpsIn;
    FewerToApply(w.phase.effects);
    NoSections();
    NothingApplied(w.view.table);
    NothingApplied(Performed(w.view, w.phase.effects[0]).table);
    if w.phase.effects[0].ApplyUpdate? {
      SectionsDo(w.phase.effects[0].update, w.config.peerIp, digest);
    }
  }

  lemma PerformedAll(w: World, digest: Identity -> Id)
    requires Inv(w, digest) && w.phase.Performing? && w.phase.work == [] && w.phase.effects == []
    ensures Inv(PerformNext(w, digest), digest)
  {
    hide Acceptable, Agreed, Target, Justified, SomethingToApply, Apply, Settled;
    NothingApplied(w.view.table);
  }

  lemma OpenWrittenKeeps(w: World, now: nat, digest: Identity -> Id)
    requires Inv(w, digest) && w.phase.Sending?
    ensures Inv(Moved(w, OpenWritten(now), digest), digest)
  {
    hide Acceptable, Agreed, ParseOpen, OpsOf;
    NothingAcceptable(w.config, now);
    NothingTold();
  }

  lemma TickKeeps(w: World, now: nat, digest: Identity -> Id)
    requires Inv(w, digest) && w.phase.Reading?
    ensures Inv(Moved(w, Tick(now), digest), digest)
  {
    hide Acceptable, Agreed, Target, Justified, SomethingToApply, Settled, Enabled;
    TickAgrees(w.config, w.phase.conn, w.frames, KeepaliveRings(now));
  }

  // Leaving a connection.
  lemma LeaveKeeps(w: World, halted: bool, digest: Identity -> Id)
    requires Inv(w, digest) && AtNetwork(w.phase)
    ensures Inv(w.(phase := Closing(halted)), digest)
  {
    hide Agreed, Target, Outcome, Settled;
  }

  lemma CloseKeeps(w: World, m: Move, digest: Identity -> Id)
    requires Inv(w, digest) && (m.Wipe? || m.ReportIdle? || m.Finish?)
    ensures Inv(Moved(w, m, digest), digest)
  {
    hide Acceptable, Agreed, Target, Outcome, Justified, SomethingToApply, Settled, Conversing;
  }

  lemma OutsideKeeps(w: World, m: Move, digest: Identity -> Id)
    requires Inv(w, digest)
    requires m.Launch? || m.Reset? || m.ReportConnect? || m.TakeStream? || m.ReportOpenSent? || m.Retry? || m.Duplicate?
    ensures Inv(Moved(w, m, digest), digest)
  {
    hide Acceptable, Agreed, Target, Outcome, Guarded, Conversing;
  }

  lemma HaltKeeps(w: World, m: Move, digest: Identity -> Id)
    requires Inv(w, digest) && (m.Halt? || m.Break?)
    ensures Inv(Moved(w, m, digest), digest)
  {
    if AtNetwork(w.phase) {
      LeaveKeeps(w, m.Halt?, digest);
    } else {
      hide Acceptable, Agreed, Target, Outcome, Guarded, Conversing;
    }
  }

  lemma StepKeeps(w: World, m: Move, digest: Identity -> Id)
    requires Inv(w, digest)
    ensures Inv(Moved(w, m, digest), digest)
  {
    hide Inv, PerformNext, Received, OnFrame;
    match m
    case Receive(f, now) => if w.phase.Reading? { ReceiveKeeps(w, f, now, digest); }
    case OpenWritten(now) => if w.phase.Sending? { OpenWrittenKeeps(w, now, digest); }
    case Tick(now) => if w.phase.Reading? { TickKeeps(w, now, digest); }
    case Perform =>
      if w.phase.Performing? {
        if w.phase.work != [] {
          PerformSectionKeeps(w, digest);
        } else if w.phase.effects != [] {
          PerformEffectKeeps(w, digest);
        } else {
          PerformedAll(w, digest);
        }
      }
    case Break => HaltKeeps(w, m, digest);
    case Halt => HaltKeeps(w, m, digest);
    case Wipe => CloseKeeps(w, m, digest);
    case ReportIdle => CloseKeeps(w, m, digest);
    case Finish => CloseKeeps(w, m, digest);
    case _ => OutsideKeeps(w, m, digest);
  }

  lemma {:induction false} AlwaysInv(moves: seq<Move>, digest: Identity -> Id)
    ensures Inv(Run(moves, digest), digest)
  {
    hide Inv, Moved;
    if moves == [] {
      InvAtFirst(digest);
    } else {
      AlwaysInv(moves[..|moves| - 1], digest);
      StepKeeps(Run(moves[..|moves| - 1], digest), moves[|moves| - 1], digest);
    }
  }

  lemma InvAtFirst(digest: Identity -> Id)
    ensures Inv(Run([], digest), digest)
  {
  }

  /* ---------- main results ---------- */

  // In every run: routes are stored only while running and ESTABLISHED; ESTABLISHED is seen only
  // after one good OPEN and then an empty KEEPALIVE; whenever IDLE or CONNECT is seen, the table
  // and the peer's information are empty; peer information is that of a good OPEN.
  lemma SessionIsSafe(moves: seq<Move>, digest: Identity -> Id)
    ensures var w := Run(moves, digest);
            && (w.view.table != [] ==> w.running && w.view.state == Established)
            && (w.view.state == Established ==>
                  && |w.frames| >= 2 && Acceptable(w.config, w.frames)
                  && GoodOpen(w.config, w.frames[0]) && IsKeepalive(w.frames[1]))
            && (w.view.state == Idle || w.view.state == Connect ==> w.view.table == [] && w.view.peerInfo.None?)
            && (w.view.peerInfo.Some? ==>
                  && w.frames != [] && GoodOpen(w.config, w.frames[0])
                  && ParseOpen(w.frames[0].body) == Ok(w.view.peerInfo.value))
            && (!w.running ==> w.view == QUIET)
  {
    hide Run, Target, Outcome, Agreed, SomethingToApply, Justified, ParseOpen, ParseUpdate;
    AlwaysInv(moves, digest);
  }

  // Whenever the connection is back to reading, the table is what the UPDATEs accepted so far leave when
  // all are decoded with the AS number width the OPEN settled, and what is shown matches them.
  lemma TableServesConversation(moves: seq<Move>, digest: Identity -> Id)
    requires Run(moves, digest).phase.Reading?
    ensures var w := Run(moves, digest);
            && w.view.table == Survivors(OpsTold(w.config, w.frames, digest))
            && (w.view.state == Established <==> |w.frames| >= 2)
            && (w.view.peerInfo.Some? <==> w.frames != [])
            && Acceptable(w.config, w.frames) && Agreed(w.config, w.phase.conn, w.frames)
  {
    hide Run, Agreed, OpsTold, Guarded, ParseOpen;
    AlwaysInv(moves, digest);
    var w := Run(moves, digest);
    TableIsSurvivors(OpsTold(w.config, w.frames, digest));
  }
}
