/**
 What the relay-safety protocol promises, over every orderly run: a commander that goes silent or
 drops is released within a bounded time and not before, a commander that keeps asking keeps its
 relays, and other clients do not interfere.
 */
module BoundedRelease {
  import opened Prelude
  import opened Store
  import opened Adam
  import opened Watchdog
  import opened Protocol

  // ------------------------------------------------------------------------ bounded release

  /** Nothing in the event comes from commander `c`, and nobody commands the switch. */
  predicate QuietEvent(c: Conn, e: Event) {
    match e
    case Request(conn, fc, addr, _) => conn != c && !IsCommandWrite(fc, addr)
    case Disconnect(conn) => conn != c
    case Restart(_, _, _) => false
    case _ => true
  }

  predicate Quiet(c: Conn, es: seq<Event>) {
    forall i :: 0 <= i < |es| ==> QuietEvent(c, es[i])
  }

  /** From the beginning of one watchdog round that landed to the end of the next one that
      lands, at most `gap` seconds pass. */
  ghost predicate Punctual(gap: real, s: System, e: Event) {
    e.Advance? && e.dt > 0.0 ==> s.now + e.dt - s.landed <= gap
  }

  /** The clock readings kept in the state are never in the future, and a round in progress is
      younger than the last one that landed. */
  predicate Clocks(s: System) {
    s.landed <= s.now && s.began <= s.now && (!s.phase.Asleep? ==> s.landed <= s.began)
  }

  ghost predicate SilentInv(s: System, c: Conn, last: real, gap: real) {
    && SafeInv(s) && s.commander == Some(c) && s.watch.lastRead == last
    && Clocks(s) && s.now - s.landed <= gap
    && (s.landed > last + TIMEOUT_S ==> s.watch.released)
  }

  /** Requests that are not command writes by others than the commander do nothing at all. */
  lemma NoiseDoesNothing(s: System, e: Event)
    requires s.commander.Some? && QuietEvent(s.commander.value, e) && (e.Request? || e.Disconnect?)
    ensures Step(s, e) == s
  {
    if e.Request? && e.addr.Some? && IsHoldingWrite(e.fc) {
      assert !IsCommandRegister(e.addr.value);
      if e.values != [] {
        assert GuardWords(s.store, e.addr.value, |e.values|) == (false, s.store);
      }
    }
    assert s.tasks + [] == s.tasks;
  }

  lemma SilentStep(s: System, e: Event, c: Conn, last: real, gap: real)
    requires SilentInv(s, c, last, gap) && QuietEvent(c, e) && Orderly(s, e) && Punctual(gap, s, e)
    ensures SilentInv(Step(s, e), c, last, gap)
  {
    SafeStep(s, e);
    if e.Request? || e.Disconnect? {
      NoiseDoesNothing(s, e);
    }
  }

  lemma {:induction false} SilentRun(s: System, es: seq<Event>, c: Conn, last: real, gap: real)
    requires SilentInv(s, c, last, gap) && Quiet(c, es)
    requires Along(s, es, Orderly) && Along(s, es, (t, e) => Punctual(gap, t, e))
    ensures SilentInv(Run(s, es), c, last, gap)
    decreases |es|
  {
    if es != [] {
      SilentStep(s, es[0], c, last, gap);
      assert Quiet(c, es[1..]);
      SilentRun(Step(s, es[0]), es[1..], c, last, gap);
    }
  }

  lemma {:induction false} ClocksRun(s: System, es: seq<Event>)
    requires Clocks(s)
    ensures Clocks(Run(s, es))
    decreases |es|
  {
    if es != [] {
      ClocksRun(Step(s, es[0]), es[1..]);
    }
  }

  /** Bounded release. In any orderly run from a start of the service, take a request of the
      commander `c` and after it any stretch without requests from `c`, without command
      writes by anyone and without a disconnect of `c`. As soon as more than 30 s plus one
      watchdog gap have passed since that request, both maintained relays are off, whatever
      was asserted before. */
  lemma SilentCommanderIsReleased(
      boot: System, before: seq<Event>, last: Event, after: seq<Event>, c: Conn, gap: real)
    requires IsBoot(boot)
    requires last.Request? && last.conn == c
    requires Along(boot, before + [last] + after, Orderly)
    requires var s := Run(boot, before + [last]);
             && s.commander == Some(c) && Quiet(c, after)
             && s.now - s.landed <= gap
             && Along(s, after, (t, e) => Punctual(gap, t, e))
    ensures var s, t := Run(boot, before + [last]), Run(boot, before + [last] + after);
            t.now > s.now + 30.0 + gap ==> !t.driver.coils.inhibit && !t.driver.coils.force
  {
    var head := before + [last];
    var s := Run(boot, head);
    AlongSplit(boot, head, after, Orderly);
    RunAppend(boot, head, after);
    RunAppend(boot, before, [last]);
    ReleasedMeansOff(boot, head);
    ClocksRun(boot, head);
    var u := Run(boot, before);
    RunOne(u, last);
    assert s.watch.lastRead == s.now;
    SilentRun(s, after, c, s.now, gap);
  }

  lemma {:induction false} AlongSplit(s: System, a: seq<Event>, b: seq<Event>, ok: (System, Event) -> bool)
    ensures Along(s, a + b, ok) <==> Along(s, a, ok) && Along(Run(s, a), b, ok)
    decreases |a|
  {
    if a == [] {
      assert a + b == b;
    } else {
      assert (a + b)[0] == a[0] && (a + b)[1..] == a[1..] + b;
      AlongSplit(Step(s, a[0]), a[1..], b, ok);
    }
  }

  /** A release that fails is tried again: as long as the commander is silent past the timeout
      and the relays have not been released, every tick begins an attempt, whatever the
      attempts before it did. */
  lemma FailedReleaseIsRetried(s: System, es: seq<Event>, c: Conn)
    requires s.commander == Some(c) && Quiet(c, es)
    ensures var t := Run(s, es);
            t.phase.Asleep? && t.now > s.watch.lastRead + 30.0 && !t.watch.released ==>
              Step(t, TickStart).phase.AtInhibit? && !Step(t, TickStart).store.snap.outputs.force
              && !Step(t, TickStart).store.snap.outputs.inhibit
  {
    SilenceKeepsClock(s, es, c);
  }

  lemma {:induction false} SilenceKeepsClock(s: System, es: seq<Event>, c: Conn)
    requires s.commander == Some(c) && Quiet(c, es)
    ensures Run(s, es).watch.lastRead == s.watch.lastRead && Run(s, es).commander == Some(c)
    ensures Run(s, es).watch.gone == s.watch.gone
    decreases |es|
  {
    if es != [] {
      if es[0].Request? || es[0].Disconnect? { NoiseDoesNothing(s, es[0]); }
      assert Quiet(c, es[1..]);
      SilenceKeepsClock(Step(s, es[0]), es[1..], c);
    }
  }

  /** Thirty seconds, no more and no less. While the commander stays connected and nobody commands
      the switch, a tick begins a release if and only if more than 30 s have passed since the
      commander's last request and it has not been done. */
  lemma SilenceIsThirtySeconds(u: System, last: Event, c: Conn, es: seq<Event>)
    requires last.Request? && last.conn == c && Step(u, last).commander == Some(c) && Quiet(c, es)
    ensures var t := Run(Step(u, last), es);
            && t.commander == Some(c)
            && (t.phase.Asleep? ==>
                  (Step(t, TickStart).phase.AtInhibit? <==> t.now > u.now + 30.0 && !t.watch.released))
            && (t.phase.Asleep? && t.now <= u.now + 30.0 ==> Step(t, TickStart).store == t.store)
  {
    var s := Step(u, last);
    assert s.watch == Watch(u.now, false, false);
    SilenceKeepsClock(s, es, c);
  }

  /** The commander stays, asks again before 30 s have passed, and nobody commands the switch anew;
      the service does not restart, and its start-up reset is over. */
  predicate Attended(c: Conn, s: System, e: Event) {
    match e
    case Advance(dt) => dt > 0.0 ==> s.now + dt <= s.watch.lastRead + 30.0
    case Request(_, fc, addr, _) => !IsCommandWrite(fc, addr)
    case Disconnect(conn) => conn != c
    case Restart(_, _, _) => false
    case _ => true
  }

  /** No command to release a maintained relay is on its way. */
  predicate NoReleases(s: System) {
    && (forall i :: i in s.tasks ==> i != SetInhibit(false) && i != SetForce(false))
    && (forall i :: i in s.gated ==> i != SetInhibit(false) && i != SetForce(false))
  }

  ghost predicate AttendedInv(c: Conn, s: System) {
    && s.commander == Some(c) && !s.watch.gone && s.now <= s.watch.lastRead + 30.0
    && s.phase.Asleep? && s.reset.Done? && NoReleases(s)
  }

  lemma AttendedDispatch(c: Conn, s: System, e: Event)
    requires AttendedInv(c, s) && (e.DispatchStart? || e.DispatchWrite?)
    ensures var t := Step(s, e);
            && AttendedInv(c, t)
            && (s.driver.coils.inhibit ==> t.driver.coils.inhibit) && (s.driver.coils.force ==> t.driver.coils.force)
  {
    if e.DispatchStart? && e.i < |s.tasks| {
      assert s.tasks[e.i] in s.tasks;
    }
    if e.DispatchWrite? && e.i < |s.gated| {
      assert s.gated[e.i] in s.gated;
      match s.gated[e.i] case SetInhibit(_) => case SetForce(_) =>
    }
  }

  lemma AttendedStep(c: Conn, s: System, e: Event)
    requires AttendedInv(c, s) && Attended(c, s, e)
    ensures var t := Step(s, e);
            && AttendedInv(c, t)
            && (s.driver.coils.inhibit ==> t.driver.coils.inhibit) && (s.driver.coils.force ==> t.driver.coils.force)
  {
    match e
    case Request(conn, fc, addr, values) => AttendedRequest(c, s, e);
    case DispatchStart(_) => AttendedDispatch(c, s, e);
    case DispatchWrite(_, _) => AttendedDispatch(c, s, e);
    case PulseWrite(r, w) => PulseWriteApart(s, r, w);
    case PulseWakes(r, w) => match r { case TestRelay => case BypassRelay => case ForceRelay => case InhibitRelay => }
    case _ =>
  }

  lemma AttendedRequest(c: Conn, s: System, e: Event)
    requires AttendedInv(c, s) && Attended(c, s, e) && e.Request?
    ensures AttendedInv(c, Step(s, e)) && Step(s, e).driver == s.driver
  {
    if Spawned(s, e) != [] {
      SpawnedByCommander(s, e);
    }
    assert s.tasks + [] == s.tasks;
  }

  /** No early release. As long as the commander stays and asks at least every 30 s, a maintained
      relay that is on stays on until somebody commands otherwise, whatever else the clients, the
      watchdog, the pulses and the sampling loop do. */
  lemma {:induction false} AttendedRelayStaysOn(s: System, es: seq<Event>, c: Conn)
    requires AttendedInv(c, s) && Along(s, es, (t, e) => Attended(c, t, e))
    ensures var t := Run(s, es);
            && t.commander == Some(c)
            && (s.driver.coils.inhibit ==> t.driver.coils.inhibit) && (s.driver.coils.force ==> t.driver.coils.force)
    decreases |es|
  {
    if es != [] {
      AttendedStep(c, s, es[0]);
      AttendedRelayStaysOn(Step(s, es[0]), es[1..], c);
    }
  }

  // ------------------------------------------------------------------------ non-interference

  /** An event of a client that does not command the switch, while another one does. */
  predicate Noise(s: System, e: Event) {
    && s.commander.Some?
    && ((e.Request? && e.conn != s.commander.value && !IsCommandWrite(e.fc, e.addr))
        || (e.Disconnect? && e.conn != s.commander.value))
  }

  /** The run without its noise. */
  function Erase(s: System, es: seq<Event>): (r: seq<Event>)
    ensures |r| <= |es|
    decreases |es|
  {
    if es == [] then []
    else if Noise(s, es[0]) then Erase(s, es[1..])
    else [es[0]] + Erase(Step(s, es[0]), es[1..])
  }

  /** Erasing from a run everything that clients other than the commander do, short of
      commanding the switch themselves, changes nothing: not the watchdog, not one relay, not
      one published register, at the end or at any point before. */
  lemma {:induction false} NoiseErases(s: System, es: seq<Event>)
    ensures Run(s, Erase(s, es)) == Run(s, es)
    ensures Along(s, Erase(s, es), (t, e) => !Noise(t, e))
    decreases |es|
  {
    if es != [] {
      if Noise(s, es[0]) {
        NoiseDoesNothing(s, es[0]);
        NoiseErases(s, es[1..]);
      } else {
        NoiseErases(Step(s, es[0]), es[1..]);
        var kept := Erase(Step(s, es[0]), es[1..]);
        assert ([es[0]] + kept)[1..] == kept;
      }
    }
  }

  /** Which requests reach the watchdog, exactly: command writes, requests of the commander, and
      any request at all while nobody commands. */
  lemma WhoRearms(s: System, conn: Conn, fc: FunctionCode, addr: Option<int>, values: seq<int>)
    ensures var t := Step(s, Request(conn, fc, addr, values));
            var commands := (fc.WriteSingle? || fc.WriteMultiple?) && addr.Some? && 0x100 <= addr.value <= 0x103;
            && (if commands || s.commander.None? || s.commander == Some(conn)
                then t.watch == Watch(s.now, false, false)
                else t == s)
            && t.commander == (if commands then Some(conn) else s.commander)
  {
    var e := Request(conn, fc, addr, values);
    if !(IsCommandWrite(fc, addr) || s.commander.None? || s.commander == Some(conn)) {
      NoiseDoesNothing(s, e);
    }
  }

  // --------------------------------------------------------------------- a dropped commander

  /** The watchdog does not tick, the service does not restart, and whoever commands at that
      moment does not disconnect. */
  predicate NoTickNoDrop(s: System, e: Event) {
    !e.TickStart? && !e.Restart? && !(e.Disconnect? && s.commander == Some(e.conn))
  }

  predicate NoRequests(es: seq<Event>) {
    forall i :: 0 <= i < |es| ==> !es[i].Request?
  }

  lemma NoRequestsTail(es: seq<Event>)
    requires es != []
    ensures NoRequests(es) <==> !es[0].Request? && NoRequests(es[1..])
  {
    if NoRequests(es[1..]) && !es[0].Request? {
      forall i | 0 <= i < |es| ensures !es[i].Request? { if i > 0 { assert !es[1..][i - 1].Request?; } }
    }
  }

  lemma {:induction false} BetweenDropAndTick(s: System, es: seq<Event>)
    requires s.phase.Asleep? && Along(s, es, NoTickNoDrop)
    ensures var t := Run(s, es);
            && t.phase.Asleep?
            && (NoRequests(es) ==> t.watch == s.watch && t.commander == s.commander)
            && (s.commander.None? && !NoRequests(es) ==> !t.watch.gone && !t.watch.released)
            && (!s.watch.gone && !s.watch.released ==> !t.watch.gone && !t.watch.released)
    decreases |es|
  {
    if es != [] {
      NoRequestsTail(es);
      BetweenDropAndTick(Step(s, es[0]), es[1..]);
      if es[0].Request? {
        WhoRearms(s, es[0].conn, es[0].fc, es[0].addr, es[0].values);
      }
    }
  }

  /** When the commander drops while the watchdog sleeps, the next tick tries to release unless
      that was already done - exactly if no request arrives in between, from anyone. One
      request, even of a mere reader, withdraws it, and then only 30 s of silence count. */
  lemma DroppedCommanderIsReleased(s: System, c: Conn, es: seq<Event>)
    requires s.commander == Some(c) && s.phase.Asleep? && Along(Step(s, Disconnect(c)), es, NoTickNoDrop)
    ensures var t := Run(Step(s, Disconnect(c)), es);
            Step(t, TickStart).phase.AtInhibit? <==>
              if NoRequests(es) then !s.watch.released else t.now - t.watch.lastRead > 30.0
  {
    BetweenDropAndTick(Step(s, Disconnect(c)), es);
  }

  /** After a drop with no request since, the watchdog stays due until a round that began after
      the drop has landed. */
  ghost predicate DroppedInv(s: System, drop: real, gap: real) {
    && SafeInv(s) && s.commander.None? && (s.watch.gone || s.watch.released)
    && Clocks(s) && s.now - s.landed <= gap
    && (s.landed > drop ==> s.watch.released)
  }

  /** No request and no restart. */
  predicate Unattended(es: seq<Event>) {
    forall i :: 0 <= i < |es| ==> !es[i].Request? && !es[i].Restart?
  }

  lemma {:induction false} DroppedRun(s: System, es: seq<Event>, drop: real, gap: real)
    requires DroppedInv(s, drop, gap) && Unattended(es)
    requires Along(s, es, Orderly) && Along(s, es, (t, e) => Punctual(gap, t, e))
    ensures DroppedInv(Run(s, es), drop, gap)
    decreases |es|
  {
    if es != [] {
      SafeStep(s, es[0]);
      assert Unattended(es[1..]);
      DroppedRun(Step(s, es[0]), es[1..], drop, gap);
    }
  }

  /** What a drop brings about. In any orderly run from a start of the service in which the
      commander drops and no request follows, both maintained relays are off as soon as more
      than one watchdog gap has passed since the drop. */
  lemma DroppedCommanderGoesOff(boot: System, before: seq<Event>, c: Conn, after: seq<Event>, gap: real)
    requires IsBoot(boot)
    requires Run(boot, before).commander == Some(c) && Unattended(after)
    requires Along(boot, before + [Disconnect(c)] + after, Orderly)
    requires var s := Run(boot, before + [Disconnect(c)]);
             s.now - s.landed <= gap && Along(s, after, (t, e) => Punctual(gap, t, e))
    ensures var s, t := Run(boot, before + [Disconnect(c)]), Run(boot, before + [Disconnect(c)] + after);
            t.now > s.now + gap ==> !t.driver.coils.inhibit && !t.driver.coils.force
  {
    var head := before + [Disconnect(c)];
    var s := Run(boot, head);
    AlongSplit(boot, head, after, Orderly);
    RunAppend(boot, head, after);
    RunAppend(boot, before, [Disconnect(c)]);
    RunOne(Run(boot, before), Disconnect(c));
    ReleasedMeansOff(boot, head);
    ClocksRun(boot, head);
    DroppedRun(s, after, s.now, gap);
  }

  /** Ten seconds in which a reader polls once and the watchdog ticks. */
  function PollingRound(reader: Conn): seq<Event> {
    [Request(reader, ReadHolding, Some(0), []), Advance(10.0), TickStart]
  }

  function PollingRounds(reader: Conn, n: nat): seq<Event> {
    if n == 0 then [] else PollingRounds(reader, n - 1) + PollingRound(reader)
  }

  /** The other half: with a reader on a second connection, the drop of the commander is never
      acted on. For every `n` there is a run of `10 n` seconds, orderly throughout, that
      leaves a forced transfer latched although nobody commands any more. */
  lemma {:induction false} ReaderKeepsRelayLatched(s: System, c: Conn, reader: Conn, n: nat)
    requires s.commander == Some(c) && s.phase.Asleep? && s.driver.coils.force && s.tasks == [] && s.gated == []
    ensures var run := [Disconnect(c)] + PollingRounds(reader, n);
            var t := Run(s, run);
            && t.driver.coils.force && t.commander.None? && t.phase.Asleep? && t.tasks == [] && t.gated == []
            && t.now == s.now + 10.0 * n as real
            && Along(s, run, Orderly)
            && (n > 0 ==> !t.watch.gone)
    decreases n
  {
    var run := [Disconnect(c)] + PollingRounds(reader, n);
    if n == 0 {
      assert run == [Disconnect(c)] && run[1..] == [];
      assert Run(s, run) == Run(Step(s, Disconnect(c)), []);
    } else {
      var sofar := [Disconnect(c)] + PollingRounds(reader, n - 1);
      ReaderKeepsRelayLatched(s, c, reader, n - 1);
      assert run == sofar + PollingRound(reader);
      RunAppend(s, sofar, PollingRound(reader));
      AlongSplit(s, sofar, PollingRound(reader), Orderly);
      PollingRoundEffect(Run(s, sofar), reader);
    }
  }

  lemma PollingRoundEffect(s: System, reader: Conn)
    requires s.commander.None? && s.phase.Asleep? && s.tasks == [] && s.gated == []
    ensures var t := Run(s, PollingRound(reader));
            && t.driver == s.driver && t.commander.None? && t.phase.Asleep? && t.tasks == [] && t.gated == []
            && t.now == s.now + 10.0 && !t.watch.gone
            && Along(s, PollingRound(reader), Orderly)
  {
    var a, b, c := Request(reader, ReadHolding, Some(0), []), Advance(10.0), TickStart;
    var s1 := Step(s, a);
    var s2 := Step(s1, b);
    var s3 := Step(s2, c);
    assert [a, b, c][1..] == [b, c] && [b, c][1..] == [c] && [c][1..] == [];
    assert Run(s, [a, b, c]) == Run(s1, [b, c]) == Run(s2, [c]) == Run(s3, []);
    assert Along(s2, [c], Orderly) && Along(s1, [b, c], Orderly);
  }
}
