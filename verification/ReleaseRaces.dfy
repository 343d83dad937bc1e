/**
 What the release of the maintained relays is worth outside orderly scheduling: the exact
 condition under which latching "released" is sound, and two runs, each breaking just one
 half of the scheduling hypothesis, in which a forced transfer outlives the release for good.
 */
module ReleaseRaces {
  import opened Prelude
  import opened Store
  import opened Adam
  import opened Watchdog
  import opened Protocol
  import opened BoundedRelease

  lemma {:induction false} NothingReasserts(s: System, es: seq<Event>)
    requires NonePending(s) && BothOff(s.driver.coils) && Unattended(es)
    ensures BothOff(Run(s, es).driver.coils)
    decreases |es|
  {
    if es != [] {
      NothingReassertsStep(s, es[0]);
      assert Unattended(es[1..]);
      NothingReasserts(Step(s, es[0]), es[1..]);
    }
  }

  lemma NothingReassertsStep(s: System, e: Event)
    requires NonePending(s) && BothOff(s.driver.coils) && !e.Request? && !e.Restart?
    ensures NonePending(Step(s, e)) && BothOff(Step(s, e).driver.coils)
  {
    match e
    case DispatchStart(i) => if i < |s.tasks| { BeginEffect(s, i); }
    case DispatchWrite(i, w) =>
      if i < |s.gated| {
        assert s.gated[i] in s.gated;
        WriteEffect(s.driver, s.gated[i], w, s.now);
      }
    case PulseWrite(_, _) =>
    case _ =>
      CoilsFrame(s, e, InhibitRelay);
      CoilsFrame(s, e, ForceRelay);
  }

  /** An assertion that has passed its checks can still be written. */
  lemma GatedReasserts(s: System, i: nat)
    requires i < |s.gated| && MaintainedAssert(s.gated[i])
    ensures !BothOff(Run(s, [DispatchWrite(i, Acked)]).driver.coils)
  {
    RunOne(s, DispatchWrite(i, Acked));
  }

  /** One that has not can still pass them, once the fail-safe is verified, and be written. */
  lemma TaskReasserts(s: System, i: nat)
    requires i < |s.tasks| && MaintainedAssert(s.tasks[i])
    ensures !BothOff(Run(s, [FailSafeVerdict(true), DispatchStart(i), DispatchWrite(|s.gated|, Acked)]).driver.coils)
  {
    var a, b, c := FailSafeVerdict(true), DispatchStart(i), DispatchWrite(|s.gated|, Acked);
    var s1 := Step(s, a);
    var s2 := Step(s1, b);
    assert [a] + [b, c] == [a, b, c] && [b] + [c] == [b, c];
    RunCons(s, a, [b, c]);
    RunCons(s1, b, [c]);
    AssertionPasses(s1, i);
    GatedReasserts(s2, |s.gated|);
  }

  lemma AssertionPasses(s: System, i: nat)
    requires i < |s.tasks| && MaintainedAssert(s.tasks[i]) && s.driver.armed
    ensures Step(s, DispatchStart(i)).gated == s.gated + [s.tasks[i]]
  {
    match s.tasks[i] case SetInhibit(_) => case SetForce(_) =>
  }

  /** When the last write of a release returns, the watchdog latches "released" and will not act
      again until a request re-arms it. That is sound - both relays are off in every
      continuation without requests - if and only if at that moment no accepted assertion is
      still on its way and the inhibit relay has not been switched back on. */
  lemma LatchIsSoundExactlyWhen(s: System)
    requires s.phase.AtForce?
    ensures var t := Step(s, TickWrite(Acked));
            (forall es :: Unattended(es) ==> BothOff(Run(t, es).driver.coils))
            <==> NonePending(s) && !s.driver.coils.inhibit
  {
    var t := Step(s, TickWrite(Acked));
    if NonePending(s) && !s.driver.coils.inhibit {
      forall es | Unattended(es) ensures BothOff(Run(t, es).driver.coils) {
        NothingReasserts(t, es);
      }
    } else if s.driver.coils.inhibit {
      assert Unattended([]) && Run(t, []) == t;
    } else if !NoAsserts(s.gated) {
      var i: nat :| i < |s.gated| && MaintainedAssert(s.gated[i]);
      GatedReasserts(t, i);
      assert Unattended([DispatchWrite(i, Acked)]);
    } else {
      var i: nat :| i < |s.tasks| && MaintainedAssert(s.tasks[i]);
      TaskReasserts(t, i);
      assert Unattended([FailSafeVerdict(true), DispatchStart(i), DispatchWrite(|t.gated|, Acked)]);
    }
  }

  /** Time passes and the watchdog ticks; nothing else happens. */
  predicate OnlyTicks(es: seq<Event>) {
    forall i :: 0 <= i < |es| ==> es[i].Advance? || es[i].TickStart? || es[i].TickWrite? || es[i].Sample?
  }

  /** Once latched, the watchdog looks on, however long the silence lasts. */
  lemma {:induction false} LatchedWatchdogLooksOn(s: System, es: seq<Event>)
    requires s.watch.released && s.phase.Asleep? && OnlyTicks(es)
    ensures Run(s, es).driver.coils == s.driver.coils && Run(s, es).watch == s.watch
    decreases |es|
  {
    if es != [] {
      assert OnlyTicks(es[1..]);
      LatchedWatchdogLooksOn(Step(s, es[0]), es[1..]);
    }
  }

  lemma RunSix(s: System, a: Event, b: Event, c: Event, d: Event, e: Event, f: Event)
    ensures Run(s, [a, b, c, d, e, f]) == Step(Step(Step(Step(Step(Step(s, a), b), c), d), e), f)
  {
    var s1 := Step(s, a);
    var s2 := Step(s1, b);
    var s3 := Step(s2, c);
    var s4 := Step(s3, d);
    RunCons(s, a, [b, c, d, e, f]);
    RunCons(s1, b, [c, d, e, f]);
    RunCons(s2, c, [d, e, f]);
    RunCons(s3, d, [e, f]);
    RunCons(s4, e, [f]);
    RunOne(Step(s4, e), f);
    assert [a] + [b, c, d, e, f] == [a, b, c, d, e, f] && [b] + [c, d, e, f] == [b, c, d, e, f]
        && [c] + [d, e, f] == [c, d, e, f] && [d] + [e, f] == [d, e, f] && [e] + [f] == [e, f];
  }

  lemma RunCons(s: System, e: Event, rest: seq<Event>)
    ensures Run(s, [e] + rest) == Run(Step(s, e), rest)
  {
    assert ([e] + rest)[1..] == rest;
  }

  /** A write that asserts forced transfer is accepted in automatic mode. */
  lemma ForceAccepted(s: System, c: Conn)
    requires s.store.snap.mode.Auto?
    ensures Spawned(s, Request(c, WriteSingle, Some(ADDR_CMD_FORCE_TRANSFER), [1])) == [SetForce(true)]
  {
    GuardWordsExact(s.store, ADDR_CMD_FORCE_TRANSFER, 1);
    WriteWordsExact(s.store, ADDR_CMD_FORCE_TRANSFER, [1]);
    assert InPattern(ADDR_CMD_FORCE_TRANSFER, [1]) == [SetForce(true)];
  }

  /** A request that asserts forced transfer while a release is under way, written after it. */
  function During(c: Conn): seq<Event> {
    [TickStart, Request(c, WriteSingle, Some(ADDR_CMD_FORCE_TRANSFER), [1]), DispatchStart(0), TickWrite(Acked),
     TickWrite(Acked), DispatchWrite(0, Acked)]
  }

  lemma DuringEffect(s: System, c: Conn)
    requires s.phase.Asleep? && Due(s.watch, s.now) && s.tasks == [] && s.gated == []
    requires s.store.snap.mode.Auto? && s.driver.armed
    ensures var t := Run(s, During(c));
            t.driver.coils.force && t.watch.released && t.commander == Some(c) && t.phase.Asleep?
  {
    var request := Request(c, WriteSingle, Some(ADDR_CMD_FORCE_TRANSFER), [1]);
    var s1 := Step(s, TickStart);
    ForceAccepted(s1, c);
    var s2 := Step(s1, request);
    assert s2.tasks == [SetForce(true)] && s2.commander == Some(c) && s2.phase.AtInhibit?;
    var s3 := Step(s2, DispatchStart(0));
    assert s3.gated == [SetForce(true)] && s3.commander == Some(c) && s3.phase.AtInhibit?;
    var s4 := Step(s3, TickWrite(Acked));
    var s5 := Step(s4, TickWrite(Acked));
    assert s5.gated == [SetForce(true)] && s5.commander == Some(c) && s5.phase.Asleep? && s5.watch.released;
    RunSix(s, TickStart, request, DispatchStart(0), TickWrite(Acked), TickWrite(Acked), DispatchWrite(0, Acked));
  }

  /** A command that arrives while a release is under way: the request re-arms the watchdog, the
      release still latches when its writes return, and the command is written after that.
      The forced transfer then stays on through any silence. */
  lemma CommandDuringRelease(s: System, c: Conn, silence: seq<Event>)
    requires s.phase.Asleep? && Due(s.watch, s.now) && s.tasks == [] && s.gated == []
    requires s.store.snap.mode.Auto? && s.driver.armed && OnlyTicks(silence)
    ensures var t := Run(s, During(c) + silence);
            t.driver.coils.force && t.watch.released && t.commander == Some(c)
  {
    DuringEffect(s, c);
    RunAppend(s, During(c), silence);
    LatchedWatchdogLooksOn(Run(s, During(c)), silence);
    CommanderKept(Run(s, During(c)), silence);
  }

  lemma {:induction false} CommanderKept(s: System, es: seq<Event>)
    requires OnlyTicks(es)
    ensures Run(s, es).commander == s.commander
    decreases |es|
  {
    if es != [] {
      assert OnlyTicks(es[1..]);
      CommanderKept(Step(s, es[0]), es[1..]);
    }
  }

  /** A forced transfer that has passed its checks when its sender drops, and a release. */
  function Overtaking(c: Conn): seq<Event> {
    [Request(c, WriteSingle, Some(ADDR_CMD_FORCE_TRANSFER), [1]), DispatchStart(0), Disconnect(c),
     TickStart, TickWrite(Acked), TickWrite(Acked)]
  }

  lemma OvertakingEffect(s: System, c: Conn)
    requires s.phase.Asleep? && s.tasks == [] && s.gated == [] && s.store.snap.mode.Auto? && s.driver.armed
    ensures var t := Run(s, Overtaking(c));
            t.gated == [SetForce(true)] && t.watch.released && t.commander.None? && t.phase.Asleep?
  {
    var request := Request(c, WriteSingle, Some(ADDR_CMD_FORCE_TRANSFER), [1]);
    ForceAccepted(s, c);
    var s1 := Step(s, request);
    assert s1.tasks == [SetForce(true)] && s1.commander == Some(c) && s1.phase.Asleep? && !s1.watch.released;
    var s2 := Step(s1, DispatchStart(0));
    assert s2.gated == [SetForce(true)] && s2.commander == Some(c) && s2.phase.Asleep? && !s2.watch.released;
    var s3 := Step(s2, Disconnect(c));
    var s4 := Step(s3, TickStart);
    assert s4.gated == [SetForce(true)] && s4.commander.None? && s4.phase.AtInhibit?;
    RunSix(s, request, DispatchStart(0), Disconnect(c), TickStart, TickWrite(Acked), TickWrite(Acked));
  }

  /** A command whose write is still waiting when its sender drops and the watchdog releases:
      the write comes last, and the forced transfer stays on through any silence. */
  lemma CommandOvertakenByRelease(s: System, c: Conn, silence: seq<Event>)
    requires s.phase.Asleep? && s.tasks == [] && s.gated == []
    requires s.store.snap.mode.Auto? && s.driver.armed && OnlyTicks(silence)
    ensures var t := Run(s, Overtaking(c) + [DispatchWrite(0, Acked)] + silence);
            t.driver.coils.force && t.watch.released && t.commander.None?
  {
    var race, last := Overtaking(c), [DispatchWrite(0, Acked)];
    OvertakingEffect(s, c);
    RunAppend(s, race, last);
    RunAppend(s, race + last, silence);
    RunOne(Run(s, race), last[0]);
    LatchedWatchdogLooksOn(Run(s, race + last), silence);
    CommanderKept(Run(s, race + last), silence);
  }
}
