/** The hold and keepalive timers of one connection over a discrete clock. */
module Timers {
  import opened Base
  import opened OpenCodec
  import opened UpdateCodec
  import opened Session

  function At(w: Wake): nat {
    w.at
  }

  // The time of the latest wake.
  function Now(start: nat, wakes: seq<Wake>): nat {
    if wakes == [] then start else At(wakes[|wakes| - 1])
  }

  // The time of the latest frame, or of the start.
  function LastFrameAt(start: nat, wakes: seq<Wake>): nat {
    if wakes == [] then start
    else if wakes[|wakes| - 1].Arrived? then At(wakes[|wakes| - 1])
    else LastFrameAt(start, wakes[..|wakes| - 1])
  }

  // The time of the first frame.
  function OpenedAt(start: nat, wakes: seq<Wake>): nat {
    if wakes == [] then start
    else
      var init := wakes[..|wakes| - 1];
      if FramesIn(init) == [] && wakes[|wakes| - 1].Arrived? then At(wakes[|wakes| - 1]) else OpenedAt(start, init)
  }

  // When keepalives went out.
  function SentAt(effects: seq<Effect>): seq<nat> {
    if effects == [] then []
    else
      var last := effects[|effects| - 1];
      SentAt(effects[..|effects| - 1]) + if last.SendKeepalive? then [last.at] else []
  }

  lemma {:induction false} SentAppend(a: seq<Effect>, b: seq<Effect>)
    ensures SentAt(a + b) == SentAt(a) + SentAt(b)
  {
    if b == [] {
      assert a + b == a;
    } else {
      var n := |b| - 1;
      assert (a + b)[..|a| + n] == a + b[..n];
      SentAppend(a, b[..n]);
    }
  }

  /* ---------- the hold timer ---------- */

  predicate DeadlineRight(c: Conn, last: nat) {
    c.hold > 0 ==> c.deadline == last + SECOND * c.hold
  }

  lemma FrameDeadline(config: Config, c: Conn, f: Frame, now: nat)
    requires OnFrame(config, c, f, now).Going? && ValidHold(c.hold)
    ensures var d := OnFrame(config, c, f, now).conn; DeadlineRight(d, now) && ValidHold(d.hold) && d.hold <= c.hold
  {
    hide ParseUpdate;
  }

  // Whenever the loop comes round with a hold time in force, the deadline is that long after the
  // last accepted frame, or after the start; the hold time is zero or at least three seconds, and
  // never above what was configured.
  lemma {:induction false} DeadlineFollowsFrames(config: Config, start: nat, wakes: seq<Wake>)
    requires ValidConfig(config) && Lived(config, start, wakes).fault.None?
    ensures var c := Lived(config, start, wakes).conn;
            DeadlineRight(c, LastFrameAt(start, wakes)) && ValidHold(c.hold) && c.hold <= config.holdTime
  {
    hide OnFrame, Enabled;
    if wakes != [] {
      var init, last := wakes[..|wakes| - 1], wakes[|wakes| - 1];
      DeadlineFollowsFrames(config, start, init);
      var c := Lived(config, start, init).conn;
      if last.Arrived? {
        AlwaysEnabled(c, last);
        FrameDeadline(config, c, last.frame, last.at);
      }
    }
  }

  // Time does not run backwards, timers go off when armed and due, and never late: nothing happens
  // after an instant at which one should have gone off.
  predicate Punctual(config: Config, start: nat, wakes: seq<Wake>) {
    if wakes == [] then true
    else
      var init, last := wakes[..|wakes| - 1], wakes[|wakes| - 1];
      var c := Lived(config, start, init).conn;
      && Punctual(config, start, init) && Now(start, init) <= At(last) && Enabled(c, last)
      && InTime(c, At(last))
  }

  predicate InTime(c: Conn, now: nat) {
    (c.hold > 0 ==> now <= c.deadline) && (c.hold > 0 && c.receivedOpen ==> now <= c.nextKeepalive)
  }

  lemma NeverOverdue(config: Config, start: nat, wakes: seq<Wake>)
    requires ValidConfig(config) && Lived(config, start, wakes).fault.None? && Punctual(config, start, wakes)
    ensures InTime(Lived(config, start, wakes).conn, Now(start, wakes))
  {
    hide OnFrame;
    if wakes != [] {
      var init, last := wakes[..|wakes| - 1], wakes[|wakes| - 1];
      var c := Lived(config, start, init).conn;
      DeadlineFollowsFrames(config, start, init);
      if last.Arrived? {
        FrameInTime(config, c, last.frame, last.at);
      }
    }
  }

  lemma FrameInTime(config: Config, c: Conn, f: Frame, now: nat)
    requires OnFrame(config, c, f, now).Going? && ValidHold(c.hold) && InTime(c, now)
    ensures InTime(OnFrame(config, c, f, now).conn, now)
  {
    hide ParseUpdate;
  }

  // With punctual timers no session outlives a silence of the hold time: it ends at that very
  // instant if nothing was received, and not before.
  lemma SilenceIsBounded(config: Config, start: nat, wakes: seq<Wake>, w: Wake)
    requires ValidConfig(config) && Lived(config, start, wakes).fault.None? && Punctual(config, start, wakes)
    ensures var c := Lived(config, start, wakes).conn;
            && (c.hold > 0 ==> Now(start, wakes) <= LastFrameAt(start, wakes) + SECOND * c.hold)
            && (w.HoldRings? && Punctual(config, start, wakes + [w]) ==>
                  w.at == LastFrameAt(start, wakes) + SECOND * c.hold)
  {
    hide Lived, Enabled;
    DeadlineFollowsFrames(config, start, wakes);
    NeverOverdue(config, start, wakes);
    assert (wakes + [w])[..|wakes|] == wakes;
    if w.HoldRings? && Punctual(config, start, wakes + [w]) {
      HoldEnabled(Lived(config, start, wakes).conn, w);
    }
  }

  lemma HoldEnabled(c: Conn, w: Wake)
    requires w.HoldRings? && Enabled(c, w)
    ensures c.hold > 0 && c.deadline <= w.at
  {
  }

  // The hold time in force after some frames.
  function HoldSettled(config: Config, frames: seq<Frame>): nat {
    if Settled(frames).Ok? && Settled(frames).value.holdTime < config.holdTime then Settled(frames).value.holdTime
    else config.holdTime
  }

  // The hold timer ends a connection, and does so exactly when it rings no earlier than the hold time
  // in force after the latest frame; with a hold time of zero it never does.
  lemma HoldTimerEnds(config: Config, start: nat, wakes: seq<Wake>, now: nat)
    requires ValidConfig(config) && Lived(config, start, wakes).fault.None?
    ensures var hold := HoldSettled(config, FramesIn(wakes));
            Lived(config, start, wakes + [HoldRings(now)]).fault
            == if hold > 0 && LastFrameAt(start, wakes) + SECOND * hold <= now then Some(HoldTimerExpired) else None
  {
    hide Lived, Acceptable;
    DeadlineFollowsFrames(config, start, wakes);
    AcceptsExactly(config, start, wakes);
    LivedOn(config, start, wakes, HoldRings(now));
    FirstIsOpen(config, FramesIn(wakes));
  }

  lemma FirstIsOpen(config: Config, frames: seq<Frame>)
    requires Acceptable(config, frames)
    ensures frames != [] <==> Settled(frames).Ok?
  {
  }

  lemma LivedOn(config: Config, start: nat, wakes: seq<Wake>, w: Wake)
    ensures Lived(config, start, wakes + [w]) == Advanced(config, Lived(config, start, wakes), w)
  {
    assert (wakes + [w])[..|wakes|] == wakes;
  }

  /* ---------- the keepalive timer ---------- */

  // The instant the k-th keepalive is due, counting from the reply to OPEN.
  function Due(first: nat, step: nat, k: nat): nat {
    if k == 0 then first else Due(first, step, k - 1) + step
  }

  predicate OnSchedule(sent: seq<nat>, first: nat, step: nat) {
    forall k | 0 <= k < |sent| :: sent[k] == Due(first, step, k)
  }

  // Before OPEN nothing was sent; afterwards, with a hold time in force, every keepalive so far
  // went out when due and the timer is set for the next.
  predicate Scheduled(c: Conn, sent: seq<nat>, first: nat) {
    if !c.receivedOpen then sent == []
    else if c.hold == 0 then sent == [first]
    else
      var step := SECOND * Interval(c.hold);
      sent != [] && OnSchedule(sent, first, step) && c.nextKeepalive == Due(first, step, |sent|)
  }

  lemma FewSent(info: OpenInfo, at: nat, state: StateName, u: Update)
    ensures SentAt([]) == [] && SentAt([SetPeerInfo(info), SendKeepalive(at), SetState(state)]) == [at]
    ensures SentAt([SetState(state)]) == [] && SentAt([SendKeepalive(at)]) == [at] && SentAt([ApplyUpdate(u)]) == []
  {
    assert [SetPeerInfo(info), SendKeepalive(at), SetState(state)][..2] == [SetPeerInfo(info), SendKeepalive(at)];
    assert [SetPeerInfo(info), SendKeepalive(at)][..1] == [SetPeerInfo(info)];
    assert [SetPeerInfo(info)][..0] == [];
    assert SentAt([SetPeerInfo(info)]) == [];
    assert [SendKeepalive(at)][..0] == [] && [SetState(state)][..0] == [] && [ApplyUpdate(u)][..0] == [];
  }

  lemma FrameSends(config: Config, c: Conn, f: Frame, now: nat)
    requires OnFrame(config, c, f, now).Going? && (c.established ==> c.receivedOpen)
    ensures var r := OnFrame(config, c, f, now);
            && r.conn.receivedOpen && (r.conn.established ==> r.conn.receivedOpen)
            && (c.receivedOpen ==>
                  SentAt(r.effects) == [] && r.conn.hold == c.hold && r.conn.nextKeepalive == c.nextKeepalive)
            && (!c.receivedOpen ==> SentAt(r.effects) == [now]
                                    && r.conn.nextKeepalive == now + SECOND * Interval(r.conn.hold))
  {
    hide ParseUpdate, ParseOpen, SentAt, Interval;
    FewSent(if f.kind == OPEN && ParseOpen(f.body).Ok? then ParseOpen(f.body).value else OpenInfo(0, 0, [], false), now,
            if c.receivedOpen then Established else OpenConfirmed,
            if ParseUpdate(f.body, c.asnLen).Ok? then ParseUpdate(f.body, c.asnLen).value
            else Update(map[], map[], [], []));
  }

  lemma ScheduledNext(sent: seq<nat>, first: nat, step: nat)
    requires OnSchedule(sent, first, step)
    ensures OnSchedule(sent + [Due(first, step, |sent|)], first, step)
  {
  }

  lemma FirstScheduled(first: nat, step: nat)
    ensures OnSchedule([first], first, step) && Due(first, step, 1) == first + step
  {
  }

  // A wake keeps the schedule.
  lemma WakeScheduled(config: Config, l: Life, w: Wake, first: nat)
    requires l.fault.None? && Advanced(config, l, w).fault.None? && Enabled(l.conn, w) && InTime(l.conn, At(w))
    requires l.conn.established ==> l.conn.receivedOpen
    requires Scheduled(l.conn, SentAt(l.effects), first)
    requires !l.conn.receivedOpen && w.Arrived? ==> first == w.at
    ensures var d := Advanced(config, l, w);
            Scheduled(d.conn, SentAt(d.effects), first) && (d.conn.established ==> d.conn.receivedOpen)
  {
    hide OnFrame, SentAt, OnSchedule, Due, Interval;
    var c, sent := l.conn, SentAt(l.effects);
    if w.Arrived? {
      var r := OnFrame(config, c, w.frame, w.at);
      FrameSends(config, c, w.frame, w.at);
      SentAppend(l.effects, r.effects);
      FirstScheduled(w.at, SECOND * Interval(r.conn.hold));
      assert sent + [] == sent && [] + [w.at] == [w.at];
    } else {
      SentAppend(l.effects, [SendKeepalive(w.at)]);
      FewSent(OpenInfo(0, 0, [], false), w.at, Idle, Update(map[], map[], [], []));
      var step := SECOND * Interval(c.hold);
      ScheduledNext(sent, first, step);
      DueNext(first, step, |sent|);
    }
  }

  lemma DueNext(first: nat, step: nat, k: nat)
    ensures Due(first, step, k + 1) == Due(first, step, k) + step
  {
  }

  // With punctual timers keepalives go out exactly at the instants they are due.
  lemma {:induction false} KeepalivesOnSchedule(config: Config, start: nat, wakes: seq<Wake>)
    requires ValidConfig(config) && Lived(config, start, wakes).fault.None? && Punctual(config, start, wakes)
    ensures var l := Lived(config, start, wakes);
            && Scheduled(l.conn, SentAt(l.effects), OpenedAt(start, wakes))
            && (l.conn.established ==> l.conn.receivedOpen)
            && (l.conn.receivedOpen <==> FramesIn(wakes) != [])
  {
    hide Scheduled, SentAt, Advanced, InTime, Enabled, Opened;
    if wakes == [] {
      OpenedScheduled(config, start);
    } else {
      var init, last := wakes[..|wakes| - 1], wakes[|wakes| - 1];
      FaultsLast(config, Lived(config, start, init), last);
      KeepalivesOnSchedule(config, start, init);
      AcceptsExactly(config, start, wakes);
      var l := Lived(config, start, init);
      if !l.conn.receivedOpen {
        AnyStart(l.conn, SentAt(l.effects), OpenedAt(start, init), OpenedAt(start, wakes));
      }
      WakeScheduled(config, l, last, OpenedAt(start, wakes));
    }
  }

  lemma OpenedScheduled(config: Config, start: nat)
    ensures Scheduled(Opened(config, start), SentAt([]), start)
    ensures !Opened(config, start).established && !Opened(config, start).receivedOpen
  {
  }

  lemma FaultsLast(config: Config, l: Life, w: Wake)
    requires Advanced(config, l, w).fault.None?
    ensures l.fault.None?
  {
  }

  lemma AnyStart(c: Conn, sent: seq<nat>, a: nat, b: nat)
    requires !c.receivedOpen && Scheduled(c, sent, a)
    ensures Scheduled(c, sent, b)
  {
  }

  /* ---------- never too often ---------- */

  predicate Spaced(c: Conn, sent: seq<nat>) {
    if !c.receivedOpen then sent == []
    else
      && sent != [] && sent[|sent| - 1] + SECOND <= c.nextKeepalive
      && forall k | 0 <= k < |sent| - 1 :: sent[k] + SECOND <= sent[k + 1]
  }

  lemma OneSecond(hold: nat)
    ensures SECOND <= SECOND * Interval(hold)
  {
  }

  lemma WakeSpaced(config: Config, l: Life, w: Wake)
    requires l.fault.None? && Advanced(config, l, w).fault.None?
    requires l.conn.established ==> l.conn.receivedOpen
    requires Spaced(l.conn, SentAt(l.effects))
    ensures var d := Advanced(config, l, w);
            Spaced(d.conn, SentAt(d.effects)) && (d.conn.established ==> d.conn.receivedOpen)
  {
    hide OnFrame, SentAt, Interval;
    var c, sent := l.conn, SentAt(l.effects);
    if w.Arrived? {
      var r := OnFrame(config, c, w.frame, w.at);
      FrameSends(config, c, w.frame, w.at);
      SentAppend(l.effects, r.effects);
      OneSecond(r.conn.hold);
      assert sent + [] == sent && [] + [w.at] == [w.at];
    } else if Enabled(c, w) {
      SentAppend(l.effects, [SendKeepalive(w.at)]);
      FewSent(OpenInfo(0, 0, [], false), w.at, Idle, Update(map[], map[], [], []));
      OneSecond(c.hold);
    }
  }

  // However late the timers are, keepalives are at least a second apart.
  lemma {:induction false} NeverTooOften(config: Config, start: nat, wakes: seq<Wake>)
    requires Lived(config, start, wakes).fault.None?
    ensures var l := Lived(config, start, wakes);
            Spaced(l.conn, SentAt(l.effects)) && (l.conn.established ==> l.conn.receivedOpen)
  {
    hide Spaced, SentAt, Advanced, Opened;
    if wakes == [] {
      OpenedScheduled(config, start);
      NothingSent(Opened(config, start));
    } else {
      var init, last := wakes[..|wakes| - 1], wakes[|wakes| - 1];
      FaultsLast(config, Lived(config, start, init), last);
      NeverTooOften(config, start, init);
      WakeSpaced(config, Lived(config, start, init), last);
    }
  }

  lemma NothingSent(c: Conn)
    requires !c.receivedOpen
    ensures Spaced(c, SentAt([]))
  {
  }

  /* ---------- when the keepalive timer sends ---------- */

  predicate NextFollows(c: Conn, sent: seq<nat>) {
    if !c.receivedOpen then sent == []
    else sent != [] && c.nextKeepalive == sent[|sent| - 1] + SECOND * Interval(c.hold)
  }

  lemma WakeFollows(config: Config, l: Life, w: Wake)
    requires l.fault.None? && Advanced(config, l, w).fault.None?
    requires l.conn.established ==> l.conn.receivedOpen
    requires NextFollows(l.conn, SentAt(l.effects))
    ensures var d := Advanced(config, l, w);
            NextFollows(d.conn, SentAt(d.effects)) && (d.conn.established ==> d.conn.receivedOpen)
  {
    hide OnFrame, SentAt, Interval;
    var c, sent := l.conn, SentAt(l.effects);
    if w.Arrived? {
      var r := OnFrame(config, c, w.frame, w.at);
      FrameSends(config, c, w.frame, w.at);
      SentAppend(l.effects, r.effects);
      assert sent + [] == sent && [] + [w.at] == [w.at];
    } else if Enabled(c, w) {
      SentAppend(l.effects, [SendKeepalive(w.at)]);
      FewSent(OpenInfo(0, 0, [], false), w.at, Idle, Update(map[], map[], [], []));
    }
  }

  lemma {:induction false} NextAfterLast(config: Config, start: nat, wakes: seq<Wake>)
    requires Lived(config, start, wakes).fault.None?
    ensures var l := Lived(config, start, wakes);
            NextFollows(l.conn, SentAt(l.effects)) && (l.conn.established ==> l.conn.receivedOpen)
  {
    hide NextFollows, SentAt, Advanced, Opened;
    if wakes == [] {
      OpenedScheduled(config, start);
      NothingFollows(Opened(config, start));
    } else {
      var init, last := wakes[..|wakes| - 1], wakes[|wakes| - 1];
      FaultsLast(config, Lived(config, start, init), last);
      NextAfterLast(config, start, init);
      WakeFollows(config, Lived(config, start, init), last);
    }
  }

  lemma NothingFollows(c: Conn)
    requires !c.receivedOpen
    ensures NextFollows(c, SentAt([]))
  {
  }

  // The keepalive timer sends, and does so exactly when a conversation with a hold time has begun and
  // the interval has passed since the keepalive sent before.
  lemma KeepaliveTimerSends(config: Config, start: nat, wakes: seq<Wake>, now: nat)
    requires ValidConfig(config) && Lived(config, start, wakes).fault.None?
    ensures FramesIn(wakes) != [] ==> SentAt(Lived(config, start, wakes).effects) != []
    ensures var l, hold := Lived(config, start, wakes), HoldSettled(config, FramesIn(wakes));
            var sent := SentAt(l.effects);
            SentAt(Lived(config, start, wakes + [KeepaliveRings(now)]).effects)
            == if FramesIn(wakes) != [] && hold > 0 && sent[|sent| - 1] + SECOND * Interval(hold) <= now then
                 sent + [now]
               else sent
  {
    hide Lived, Acceptable, SentAt, Interval;
    var l := Lived(config, start, wakes);
    AcceptsExactly(config, start, wakes);
    NextAfterLast(config, start, wakes);
    LivedOn(config, start, wakes, KeepaliveRings(now));
    FirstIsOpen(config, FramesIn(wakes));
    SentAppend(l.effects, [SendKeepalive(now)]);
    FewSent(OpenInfo(0, 0, [], false), now, Idle, Update(map[], map[], [], []));
  }

  /* ---------- three in every window ---------- */

  lemma {:induction false} DueMonotone(first: nat, step: nat, j: nat, k: nat)
    requires j <= k
    ensures Due(first, step, j) <= Due(first, step, k)
  {
    if j < k {
      DueMonotone(first, step, j, k - 1);
    }
  }

  // The first due instant not before x, looking no further than the k-th.
  lemma {:induction false} FirstDue(first: nat, step: nat, x: nat, k: nat) returns (j: nat)
    requires first <= x <= Due(first, step, k) && step > 0
    ensures x <= Due(first, step, j) < x + step
  {
    if k == 0 || Due(first, step, k - 1) < x {
      j := k;
    } else {
      j := FirstDue(first, step, x, k - 1);
    }
  }

  // The interval is the longest of whole seconds, one at least, that the hold time has three times.
  lemma IntervalBounds(hold: nat)
    requires ValidHold(hold) && hold > 0
    ensures 1 <= Interval(hold) && 3 * Interval(hold) <= hold < 3 * Interval(hold) + 3
  {
  }

  // While a session with a hold time is up, every window of that length since OPEN holds at least
  // three keepalives sent, each at least a second after the one before.
  lemma ThreeKeepalivesPerWindow(config: Config, start: nat, wakes: seq<Wake>, x: nat) returns (k: nat)
    requires ValidConfig(config) && Lived(config, start, wakes).fault.None? && Punctual(config, start, wakes)
    requires FramesIn(wakes) != [] && Lived(config, start, wakes).conn.hold > 0
    requires OpenedAt(start, wakes) <= x && x + SECOND * Lived(config, start, wakes).conn.hold <= Now(start, wakes)
    ensures var sent, hold := SentAt(Lived(config, start, wakes).effects), Lived(config, start, wakes).conn.hold;
            && k + 2 < |sent| && x <= sent[k] && sent[k + 2] < x + SECOND * hold
            && sent[k] + SECOND <= sent[k + 1] && sent[k + 1] + SECOND <= sent[k + 2]
  {
    hide Lived, Due, Interval, SentAt, Punctual;
    var c, sent := Lived(config, start, wakes).conn, SentAt(Lived(config, start, wakes).effects);
    var first, step := OpenedAt(start, wakes), SECOND * Interval(c.hold);
    DeadlineFollowsFrames(config, start, wakes);
    KeepalivesOnSchedule(config, start, wakes);
    NeverOverdue(config, start, wakes);
    IntervalBounds(c.hold);
    k := FirstDue(first, step, x, |sent|);
    DueNext(first, step, k);
    DueNext(first, step, k + 1);
    if |sent| <= k + 2 {
      DueMonotone(first, step, |sent|, k + 2);
      assert false;
    }
  }
}
