/** One BGP connection: how it reacts to frames and timers, and which frames it accepts. */
module Session {
  import opened Base
  import opened OpenCodec
  import opened UpdateCodec

  // Instants are counted in nanoseconds.
  const SECOND: nat := 1_000_000_000
  const YEAR: nat := 86400 * 365

  const OPEN: byte := 1
  const UPDATE: byte := 2
  const NOTIFICATION: byte := 3
  const KEEPALIVE: byte := 4

  // A floating-point number of seconds.
  datatype Delay = Finite(seconds: real) | NotFinite

  datatype Config = Config(localAs: nat, routerId: Bytes, peerIp: Bytes, peerAs: nat, holdTime: nat, listenPort: nat,
                           reconnectDelay: Delay, connectTimeout: Delay, activeRetryDelay: Delay)

  datatype ConfigFault = ZeroAs | ShortHold | ZeroPort | BadDelay(which: nat)

  const LONGEST_DELAY: real := 86400.0

  // The delays in the order they are checked, and whether each may be zero.
  function Delays(c: Config): seq<(Delay, bool)> {
    [(c.reconnectDelay, true), (c.connectTimeout, false), (c.activeRetryDelay, false)]
  }

  predicate ValidDelay(d: (Delay, bool)) {
    d.0.Finite? && d.0.seconds <= LONGEST_DELAY && if d.1 then 0.0 <= d.0.seconds else 0.0 < d.0.seconds
  }

  // Accepts exactly the valid configurations; a refusal names the first thing wrong.
  method Validate(c: Config) returns (fault: Option<ConfigFault>)
    ensures fault.None? <==> ValidConfig(c)
    ensures fault == Some(ZeroAs) <==> c.localAs == 0 || c.peerAs == 0
    ensures fault == Some(ShortHold) ==> 1 <= c.holdTime <= 2
    ensures fault == Some(ZeroPort) ==> c.listenPort == 0 && ValidHold(c.holdTime)
    ensures fault.Some? && fault.value.BadDelay? ==>
              && fault.value.which < 3 && !ValidDelay(Delays(c)[fault.value.which])
              && forall i | 0 <= i < fault.value.which :: ValidDelay(Delays(c)[i])
  {
    if c.localAs == 0 || c.peerAs == 0 {
      return Some(ZeroAs);
    }
    if c.holdTime != 0 && c.holdTime < 3 {
      return Some(ShortHold);
    }
    if c.listenPort == 0 {
      return Some(ZeroPort);
    }
    for i := 0 to 3
      invariant forall k | 0 <= k < i :: ValidDelay(Delays(c)[k])
    {
      var (value, allowZero) := Delays(c)[i];
      if value.NotFinite? || value.seconds < 0.0 || (!allowZero && value.seconds == 0.0)
         || value.seconds > LONGEST_DELAY {
        return Some(BadDelay(i));
      }
    }
    assert ValidDelay(Delays(c)[0]) && ValidDelay(Delays(c)[1]) && ValidDelay(Delays(c)[2]);
    return None;
  }

  predicate UpToADay(d: Delay) {
    d.Finite? && 0.0 <= d.seconds <= LONGEST_DELAY
  }

  // Positive AS numbers and port, a hold time of zero or at least three, and delays of at most a
  // day; only reconnecting may be immediate.
  predicate ValidConfig(c: Config) {
    && c.localAs > 0 && c.peerAs > 0 && ValidHold(c.holdTime) && c.listenPort > 0
    && UpToADay(c.reconnectDelay) && UpToADay(c.connectTimeout) && UpToADay(c.activeRetryDelay)
    && c.connectTimeout.seconds > 0.0 && c.activeRetryDelay.seconds > 0.0
  }

  datatype StateName = Idle | Connect | OpenSent | OpenConfirmed | Established

  datatype Frame = Frame(kind: byte, body: Bytes)

  datatype Fault =
    | HoldTimerExpired
    | BadOpen(error: Error)
    | AsnMismatch
    | BadUpdate(error: Error)
    | Notified(code: nat, subcode: nat)
    | Unexpected(kind: byte)

  datatype Conn = Conn(hold: nat, receivedOpen: bool, established: bool, asnLen: nat, deadline: nat, nextKeepalive: nat)

  datatype Effect =
    | SetPeerInfo(info: OpenInfo)
    | SendKeepalive(at: nat)
    | SetState(state: StateName)
    | ApplyUpdate(update: Update)

  datatype Reaction = Going(conn: Conn, effects: seq<Effect>) | Failed(fault: Fault)

  function Min(a: nat, b: nat): nat {
    if a < b then a else b
  }

  // Seconds between keepalives.
  function Interval(hold: nat): nat {
    if hold / 3 < 1 then 1 else hold / 3
  }

  function Opened(config: Config, now: nat): Conn {
    Conn(config.holdTime, false, false, 2,
         now + SECOND * (if config.holdTime == 0 then YEAR else config.holdTime), now + SECOND * YEAR)
  }

  function Extended(c: Conn, now: nat): Conn {
    if c.hold > 0 then c.(deadline := now + SECOND * c.hold) else c
  }

  function Octet(body: Bytes, i: nat): nat {
    if i < |body| then body[i] else 0
  }

  function OnOpen(config: Config, c: Conn, body: Bytes, now: nat): Reaction {
    match ParseOpen(body)
    case Err(e) => Failed(BadOpen(e))
    case Ok(info) =>
      if info.peerAs != config.peerAs then Failed(AsnMismatch)
      else
        var hold := Min(c.hold, info.holdTime);
        Going(Extended(c.(hold := hold, receivedOpen := true, asnLen := if info.fourOctetAs then 4 else c.asnLen,
                          nextKeepalive := now + SECOND * Interval(hold)), now),
              [SetPeerInfo(info), SendKeepalive(now), SetState(OpenConfirmed)])
  }

  function OnUpdate(c: Conn, body: Bytes, now: nat): Reaction {
    match ParseUpdate(body, c.asnLen)
    case Err(e) => Failed(BadUpdate(e))
    case Ok(u) => Going(Extended(c, now), [ApplyUpdate(u)])
  }

  function OnFrame(config: Config, c: Conn, f: Frame, now: nat): Reaction {
    if f.kind == OPEN && !c.receivedOpen then OnOpen(config, c, f.body, now)
    else if f.kind == KEEPALIVE && c.receivedOpen && f.body == [] then
      Going(Extended(c.(established := true), now), if c.established then [] else [SetState(Established)])
    else if f.kind == UPDATE && c.established then OnUpdate(c, f.body, now)
    else if f.kind == NOTIFICATION then Failed(Notified(Octet(f.body, 0), Octet(f.body, 1)))
    else Failed(Unexpected(f.kind))
  }

  // What the connection wakes up for.
  datatype Wake = Arrived(at: nat, frame: Frame) | HoldRings(at: nat) | KeepaliveRings(at: nat)

  // A timer that is not armed or not yet due does not wake anyone.
  predicate Enabled(c: Conn, w: Wake) {
    match w
    case Arrived(_, _) => true
    case HoldRings(at) => c.hold > 0 && c.deadline <= at
    case KeepaliveRings(at) => c.receivedOpen && c.hold > 0 && c.nextKeepalive <= at
  }

  function React(config: Config, c: Conn, w: Wake): Reaction {
    match w
    case Arrived(at, f) => OnFrame(config, c, f, at)
    case HoldRings(_) => Failed(HoldTimerExpired)
    case KeepaliveRings(at) => Going(c.(nextKeepalive := at + SECOND * Interval(c.hold)), [SendKeepalive(at)])
  }

  // A connection's whole life: what it did, and the fault that ended it, if one did.
  datatype Life = Life(conn: Conn, effects: seq<Effect>, fault: Option<Fault>)

  function Advanced(config: Config, l: Life, w: Wake): Life {
    if l.fault.Some? || !Enabled(l.conn, w) then l
    else
      match React(config, l.conn, w)
      case Going(conn, effects) => Life(conn, l.effects + effects, None)
      case Failed(fault) => l.(fault := Some(fault))
  }

  function Lived(config: Config, start: nat, wakes: seq<Wake>): Life {
    if wakes == [] then Life(Opened(config, start), [], None)
    else Advanced(config, Lived(config, start, wakes[..|wakes| - 1]), wakes[|wakes| - 1])
  }

  // Handling one frame, as the loop body does it on its local variables.
  method HandleFrame(config: Config, before: Conn, f: Frame, now: nat) returns (r: Reaction)
    ensures r == OnFrame(config, before, f, now)
  {
    hide ParseOpen, ParseUpdate, Interval;
    var hold, receivedOpen, established, asnLen :=
      before.hold, before.receivedOpen, before.established, before.asnLen;
    var deadline, nextKeepalive := before.deadline, before.nextKeepalive;
    var effects := [];
    if f.kind == 1 && !receivedOpen {
      var parsed := Open(f.body);
      if parsed.Err? {
        return Failed(BadOpen(parsed.error));
      }
      var info := parsed.value;
      if info.peerAs != config.peerAs {
        return Failed(AsnMismatch);
      }
      hold := Min(hold, info.holdTime);
      if info.fourOctetAs {
        asnLen := 4;
      }
      effects := effects + [SetPeerInfo(info)];
      effects := effects + [SendKeepalive(now)];
      receivedOpen := true;
      effects := effects + [SetState(OpenConfirmed)];
      nextKeepalive := now + SECOND * Interval(hold);
    } else if f.kind == 4 && receivedOpen && f.body == [] {
      if !established {
        established := true;
        effects := effects + [SetState(Established)];
      }
    } else if f.kind == 2 && established {
      var decoded := DecodeUpdate(f.body, asnLen);
      if decoded.Err? {
        return Failed(BadUpdate(decoded.error));
      }
      effects := effects + [ApplyUpdate(decoded.value)];
    } else if f.kind == 3 {
      return Failed(Notified(Octet(f.body, 0), Octet(f.body, 1)));
    } else {
      return Failed(Unexpected(f.kind));
    }
    if hold > 0 {
      deadline := now + SECOND * hold;
    }
    return Going(Conn(hold, receivedOpen, established, asnLen, deadline, nextKeepalive), effects);
  }

  // The connection's loop over everything it wakes up for, until a fault ends it.
  method Connected(config: Config, start: nat, wakes: seq<Wake>) returns (life: Life)
    ensures life == Lived(config, start, wakes)
  {
    hide Opened, React, OnFrame;
    life := Life(Opened(config, start), [], None);
    for i := 0 to |wakes|
      invariant life == Lived(config, start, wakes[..i])
    {
      assert wakes[..i + 1][..i] == wakes[..i];
      var r;
      if life.fault.Some? || !Enabled(life.conn, wakes[i]) {
        continue;
      }
      match wakes[i] {
        case Arrived(at, f) =>
          r := HandleFrame(config, life.conn, f, at);
          assert r == React(config, life.conn, wakes[i]) by {
            ReactFrame(config, life.conn, at, f);
          }
        case _ =>
          r := React(config, life.conn, wakes[i]);
      }
      life := if r.Going? then Life(r.conn, life.effects + r.effects, None) else life.(fault := Some(r.fault));
    }
    assert wakes[..|wakes|] == wakes;
  }

  lemma ReactFrame(config: Config, c: Conn, at: nat, f: Frame)
    ensures React(config, c, Arrived(at, f)) == OnFrame(config, c, f, at)
  {
  }

  /* ---------- which frames are accepted ---------- */

  predicate GoodOpen(config: Config, f: Frame) {
    f.kind == OPEN && ParseOpen(f.body).Ok? && ParseOpen(f.body).value.peerAs == config.peerAs
  }

  // The AS number width an OPEN settles.
  function Width(open: Result<OpenInfo>): nat {
    if open.Ok? && open.value.fourOctetAs then 4 else 2
  }

  // What the first frame of a conversation settles.
  function Settled(frames: seq<Frame>): Result<OpenInfo> {
    if frames == [] then Err(InvalidOpen) else ParseOpen(frames[0].body)
  }

  predicate IsKeepalive(f: Frame) {
    f.kind == KEEPALIVE && f.body == []
  }

  predicate IsUpdate(f: Frame, width: nat) {
    f.kind == UPDATE && ParseUpdate(f.body, width).Ok?
  }

  // One OPEN from the configured AS, an empty KEEPALIVE, then empty KEEPALIVEs and UPDATEs that
  // can be decoded with the width the OPEN settled.
  predicate Acceptable(config: Config, frames: seq<Frame>) {
    frames != [] ==>
      && GoodOpen(config, frames[0])
      && (|frames| > 1 ==> IsKeepalive(frames[1]))
      && forall i | 2 <= i < |frames| :: IsKeepalive(frames[i]) || IsUpdate(frames[i], Width(Settled(frames)))
  }

  // The frames among a connection's wakes.
  function FramesIn(wakes: seq<Wake>): seq<Frame> {
    if wakes == [] then []
    else
      var last := wakes[|wakes| - 1];
      FramesIn(wakes[..|wakes| - 1]) + if last.Arrived? then [last.frame] else []
  }

  // The connection's variables after the given frames.
  predicate Agreed(config: Config, c: Conn, frames: seq<Frame>)
    requires Acceptable(config, frames)
  {
    && c.receivedOpen == (frames != [])
    && c.established == (|frames| > 1)
    && c.hold == (if frames == [] then config.holdTime else Min(config.holdTime, Settled(frames).value.holdTime))
    && c.asnLen == Width(Settled(frames))
  }

  lemma AcceptableFront(config: Config, frames: seq<Frame>, f: Frame)
    requires Acceptable(config, frames + [f])
    ensures Acceptable(config, frames)
  {
    var all := frames + [f];
    if frames != [] {
      assert all[0] == frames[0];
      assert |frames| > 1 ==> all[1] == frames[1];
      assert forall i | 2 <= i < |frames| :: all[i] == frames[i];
    }
  }

  // What may come next.
  predicate Next(config: Config, frames: seq<Frame>, f: Frame)
    requires Acceptable(config, frames)
  {
    if frames == [] then GoodOpen(config, f)
    else IsKeepalive(f) || (|frames| > 1 && IsUpdate(f, Width(Settled(frames))))
  }

  lemma AcceptableNext(config: Config, frames: seq<Frame>, f: Frame)
    requires Acceptable(config, frames)
    ensures Acceptable(config, frames + [f]) <==> Next(config, frames, f)
  {
    var all := frames + [f];
    assert all[|frames|] == f;
    if frames != [] {
      assert all[0] == frames[0];
      assert |frames| > 1 ==> all[1] == frames[1];
      assert forall i | 2 <= i < |frames| :: all[i] == frames[i];
    }
  }

  // One frame is taken exactly when it may come next, and settles what it should.
  lemma FrameAccepted(config: Config, c: Conn, frames: seq<Frame>, f: Frame, now: nat)
    requires Acceptable(config, frames) && Agreed(config, c, frames)
    ensures OnFrame(config, c, f, now).Going? <==> Acceptable(config, frames + [f])
    ensures OnFrame(config, c, f, now).Going? ==> Agreed(config, OnFrame(config, c, f, now).conn, frames + [f])
  {
    hide ParseOpen, ParseUpdate, Acceptable;
    AcceptableNext(config, frames, f);
    if frames != [] {
      assert (frames + [f])[0] == frames[0];
    }
  }

  // The octet at a place of a body, zero when the body is too short.
  predicate OctetIs(body: Bytes, i: nat, v: nat) {
    if i < |body| then v == body[i] else v == 0
  }

  // A refused frame ends the connection with what is wrong with it at that point of the conversation.
  lemma RefusalNamesItsCause(config: Config, c: Conn, frames: seq<Frame>, f: Frame, now: nat)
    requires Acceptable(config, frames) && Agreed(config, c, frames) && !Acceptable(config, frames + [f])
    ensures OnFrame(config, c, f, now).Failed?
    ensures var fault := OnFrame(config, c, f, now).fault;
            && (fault.Notified? <==> f.kind == 3)
            && (fault.Notified? ==> OctetIs(f.body, 0, fault.code) && OctetIs(f.body, 1, fault.subcode))
            && (fault.BadOpen? || fault.AsnMismatch? <==> f.kind == 1 && frames == [])
            && (fault.BadOpen? ==> ParseOpen(f.body) == Err(fault.error))
            && (fault.AsnMismatch? ==> ParseOpen(f.body).Ok? && ParseOpen(f.body).value.peerAs != config.peerAs)
            && (fault.BadUpdate? <==> f.kind == 2 && |frames| > 1)
            && (fault.BadUpdate? ==> ParseUpdate(f.body, Width(Settled(frames))) == Err(fault.error))
            && (fault.Unexpected? ==> fault.kind == f.kind) && !fault.HoldTimerExpired?
  {
    hide ParseOpen, ParseUpdate, Acceptable;
    FrameAccepted(config, c, frames, f, now);
  }

  lemma NothingAcceptable(config: Config, start: nat)
    ensures Acceptable(config, []) && Agreed(config, Opened(config, start), [])
  {
  }

  // The hold timer went off while it was armed and due.
  predicate HoldRang(config: Config, start: nat, wakes: seq<Wake>) {
    if wakes == [] then false
    else
      var init, last := wakes[..|wakes| - 1], wakes[|wakes| - 1];
      HoldRang(config, start, init) || (last.HoldRings? && Enabled(Lived(config, start, init).conn, last))
  }

  // A connection is still up after some wakes exactly when the hold timer did not go off and the
  // frames received make an acceptable conversation; then its variables are those it settled.
  lemma {:induction false} AcceptsExactly(config: Config, start: nat, wakes: seq<Wake>)
    ensures Lived(config, start, wakes).fault.None?
       <==> Acceptable(config, FramesIn(wakes)) && !HoldRang(config, start, wakes)
    ensures Lived(config, start, wakes).fault.None? ==>
              Agreed(config, Lived(config, start, wakes).conn, FramesIn(wakes))
  {
    hide Acceptable, Agreed, OnFrame, Opened, Enabled;
    if wakes == [] {
      NothingAcceptable(config, start);
    } else {
      var init, last := wakes[..|wakes| - 1], wakes[|wakes| - 1];
      AcceptsExactly(config, start, init);
      var life, frames := Lived(config, start, init), FramesIn(init);
      if last.Arrived? {
        AlwaysEnabled(life.conn, last);
        if life.fault.None? {
          FrameAccepted(config, life.conn, frames, last.frame, last.at);
        } else if Acceptable(config, frames + [last.frame]) {
          AcceptableFront(config, frames, last.frame);
        }
      } else {
        assert frames + [] == frames;
        if life.fault.None? && last.KeepaliveRings? {
          TickAgrees(config, life.conn, frames, last);
        }
      }
    }
  }

  lemma AlwaysEnabled(c: Conn, w: Wake)
    requires w.Arrived?
    ensures Enabled(c, w)
  {
  }

  lemma TickAgrees(config: Config, c: Conn, frames: seq<Frame>, w: Wake)
    requires Acceptable(config, frames) && Agreed(config, c, frames) && w.KeepaliveRings?
    ensures React(config, c, w).Going? && Agreed(config, React(config, c, w).conn, frames)
  {
  }

  /* ---------- what reaches the table ---------- */

  function UpdatesIn(effects: seq<Effect>): seq<Update> {
    if effects == [] then []
    else
      var last := effects[|effects| - 1];
      UpdatesIn(effects[..|effects| - 1]) + if last.ApplyUpdate? then [last.update] else []
  }

  // The UPDATEs of a conversation, each decoded with the given width.
  function Told(frames: seq<Frame>, width: nat): seq<Update> {
    if frames == [] then []
    else
      var last := frames[|frames| - 1];
      Told(frames[..|frames| - 1], width) + if IsUpdate(last, width) then [ParseUpdate(last.body, width).value] else []
  }

  lemma {:induction false} UpdatesAppend(a: seq<Effect>, b: seq<Effect>)
    ensures UpdatesIn(a + b) == UpdatesIn(a) + UpdatesIn(b)
  {
    if b == [] {
      assert a + b == a;
    } else {
      var n := |b| - 1;
      assert (a + b)[..|a| + n] == a + b[..n];
      UpdatesAppend(a, b[..n]);
    }
  }

  lemma FewEffects(info: OpenInfo, at: nat, state: StateName, u: Update)
    ensures UpdatesIn([]) == [] && UpdatesIn([SetPeerInfo(info), SendKeepalive(at), SetState(state)]) == []
    ensures UpdatesIn([SetState(state)]) == [] && UpdatesIn([SendKeepalive(at)]) == []
    ensures UpdatesIn([ApplyUpdate(u)]) == [u]
  {
    assert [SetPeerInfo(info), SendKeepalive(at), SetState(state)][..2] == [SetPeerInfo(info), SendKeepalive(at)];
    assert [SetPeerInfo(info), SendKeepalive(at)][..1] == [SetPeerInfo(info)];
    assert [SetPeerInfo(info)][..0] == [];
    assert UpdatesIn([SetPeerInfo(info)]) == [];
    assert [SendKeepalive(at)][..0] == [] && [SetState(state)][..0] == [] && [ApplyUpdate(u)][..0] == [];
  }

  lemma FrameTells(config: Config, c: Conn, frames: seq<Frame>, f: Frame, now: nat)
    requires Acceptable(config, frames) && Agreed(config, c, frames)
    requires OnFrame(config, c, f, now).Going? && frames != []
    ensures UpdatesIn(OnFrame(config, c, f, now).effects) == Told([f], c.asnLen)
  {
    hide ParseOpen, ParseUpdate, Acceptable, Told;
    assert Told([f], c.asnLen) == if IsUpdate(f, c.asnLen) then [ParseUpdate(f.body, c.asnLen).value] else [] by {
      ToldSingle(f, c.asnLen);
    }
    FewEffects(OpenInfo(0, 0, [], false), now, Established,
               if IsUpdate(f, c.asnLen) then ParseUpdate(f.body, c.asnLen).value else Update(map[], map[], [], []));
  }

  lemma ToldSingle(f: Frame, width: nat)
    ensures Told([f], width) == if IsUpdate(f, width) then [ParseUpdate(f.body, width).value] else []
  {
    assert [f][..0] == [];
  }

  lemma ToldSnoc(frames: seq<Frame>, f: Frame, width: nat)
    ensures Told(frames + [f], width) == Told(frames, width) + Told([f], width)
  {
    ToldSingle(f, width);
    assert (frames + [f])[..|frames|] == frames;
  }

  lemma OpenTells(config: Config, c: Conn, f: Frame, now: nat)
    requires !c.receivedOpen && !c.established && OnFrame(config, c, f, now).Going?
    ensures UpdatesIn(OnFrame(config, c, f, now).effects) == [] && forall width :: Told([f], width) == []
  {
    hide ParseOpen, ParseUpdate, Told;
    FewEffects(ParseOpen(f.body).value, now, OpenConfirmed, Update(map[], map[], [], []));
    forall width ensures Told([f], width) == [] {
      ToldSingle(f, width);
    }
  }

  lemma SettledFirst(frames: seq<Frame>, f: Frame)
    requires frames != []
    ensures Settled(frames + [f]) == Settled(frames)
  {
    assert (frames + [f])[0] == frames[0];
  }

  // The updates handed to the table are exactly those of the conversation, in order, decoded with
  // the width its OPEN settled.
  lemma {:induction false} AppliesExactly(config: Config, start: nat, wakes: seq<Wake>)
    requires Lived(config, start, wakes).fault.None?
    ensures var frames := FramesIn(wakes);
            UpdatesIn(Lived(config, start, wakes).effects) == Told(frames, Width(Settled(frames)))
  {
    hide Acceptable, Agreed, OnFrame, Opened, Told, UpdatesIn, Settled, Enabled;
    if wakes == [] {
      NothingTold();
    } else {
      var init, last := wakes[..|wakes| - 1], wakes[|wakes| - 1];
      var before, frames := Lived(config, start, init), FramesIn(init);
      AppliesExactly(config, start, init);
      if last.Arrived? {
        AcceptsExactly(config, start, init);
        AlwaysEnabled(before.conn, last);
        OneMoreFrame(config, before, frames, last);
      } else {
        assert frames + [] == frames;
        UpdatesAppend(before.effects, [SendKeepalive(last.at)]);
        FewEffects(OpenInfo(0, 0, [], false), last.at, Idle, Update(map[], map[], [], []));
      }
    }
  }

  lemma NothingTold()
    ensures UpdatesIn([]) == [] && forall width :: Told([], width) == []
  {
  }

  lemma OneMoreFrame(config: Config, before: Life, frames: seq<Frame>, w: Wake)
    requires w.Arrived? && Acceptable(config, frames) && Agreed(config, before.conn, frames)
    requires OnFrame(config, before.conn, w.frame, w.at).Going?
    requires UpdatesIn(before.effects) == Told(frames, Width(Settled(frames)))
    ensures var all := frames + [w.frame];
            UpdatesIn(before.effects + OnFrame(config, before.conn, w.frame, w.at).effects)
            == Told(all, Width(Settled(all)))
  {
    hide Acceptable, OnFrame, Told, UpdatesIn;
    UpdatesAppend(before.effects, OnFrame(config, before.conn, w.frame, w.at).effects);
    var all := frames + [w.frame];
    ToldSnoc(frames, w.frame, Width(Settled(all)));
    if frames == [] {
      OpenTells(config, before.conn, w.frame, w.at);
      NothingTold();
    } else {
      SettledFirst(frames, w.frame);
      FrameTells(config, before.conn, frames, w.frame, w.at);
    }
  }
}
