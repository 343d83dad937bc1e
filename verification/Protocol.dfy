/**
 The relay-safety protocol of the ATS companion as one timed transition system: requests and
 disconnects of several Modbus clients, the watchdog, the dispatch of accepted commands, the
 sampling loop with its start-up reset, pulse release tasks, the module's fail-safe
 verdict, and crash with restart all act on the same relays.

 Steps are atomic between the points where the program waits: a watchdog release is three
 steps (the decision and one write each for the inhibit and the force-transfer relay), a
 dispatched command is a task that some time after the request passes or fails its checks
 and some time after that writes, and the start-up reset writes one channel a step. A write
 that reconnects is a verdict on the fail-safe followed by the write. An event that does not
 apply in a state leaves it unchanged, so every sequence of events is a run.

 One thing is assumed: of two pulses on the same relay, the second does not reach its checks
 while the first is between its checks and its write.
 */
module Protocol {
  import opened Prelude
  import opened Store
  import opened Adam
  import opened Watchdog

  /** Where the watchdog is: asleep, or about to write the inhibit or the force relay. */
  datatype Phase = Asleep | AtInhibit | AtForce

  /** The start-up reset: to be started, about to write channel `k`, or done. */
  datatype Reset = NotStarted | Writing(k: nat) | Done

  datatype System = System(
    now: real,
    commander: Option<Conn>,
    watch: Watch,
    phase: Phase,
    store: StoreState,
    driver: Driver,
    tasks: seq<Intent>,       // accepted commands that have not reached their checks
    gated: seq<Maintained>,   // maintained commands past their checks, not yet written
    reset: Reset,
    began: real,              // when the current watchdog round began
    landed: real)             // when the last round began that found nothing to do or released both relays

  datatype Event =
    | Advance(dt: real)
    | Request(conn: Conn, fc: FunctionCode, addr: Option<int>, values: seq<int>)
    | Disconnect(conn: Conn)
    | DispatchStart(i: nat)
    | DispatchWrite(i: nat, w: WriteResult)
    | PulseWrite(r: Relay, w: WriteResult)
    | TickStart
    | TickWrite(w: WriteResult)
    | ResetStart
    | ResetWrite(w: WriteResult)
    | Sample(inputs: Inputs, wall: int)
    | SampleFails
    | PulseWakes(r: Relay, w: WriteResult)
    | FailSafeVerdict(ok: bool)
    | Restart(p: Persisted, wall: int, verdict: bool)

  /** A process that has just started over relays left as they were. */
  function Boot(now: real, coils: Outputs, p: Persisted, wall: int, verdict: bool): System {
    var store := Load(p, wall);
    System(now, None, FreshWatch(now), Asleep,
           if verdict then store else WithOutputFault(store, true),
           FreshDriver(coils, verdict), [], [], NotStarted, now, now)
  }

  /** The commands that a request puts on their way. */
  function Spawned(s: System, e: Event): seq<Intent> {
    if e.Request? && e.addr.Some? && IsHoldingWrite(e.fc) then GuardedWrite(s.store, e.fc, e.addr.value, e.values).0
    else []
  }

  function Step(s: System, e: Event): System {
    match e
    case Advance(dt) => if dt > 0.0 then s.(now := s.now + dt) else s
    case Request(conn, fc, addr, values) =>
      var (commander, watch) := NoteRequest(s.commander, s.watch, conn, fc, addr, s.now);
      s.(commander := commander, watch := watch, tasks := s.tasks + Spawned(s, e),
         store := if addr.Some? && IsHoldingWrite(fc) then GuardedWrite(s.store, fc, addr.value, values).1 else s.store)
    case Disconnect(conn) =>
      var (commander, watch) := NoteDisconnect(s.commander, s.watch, conn);
      s.(commander := commander, watch := watch)
    case DispatchStart(i) => if i < |s.tasks| then Begin(s, i) else s
    case DispatchWrite(i, w) =>
      if i >= |s.gated| then s
      else
        s.(driver := WriteIntent(s.driver, s.gated[i], w, s.now), store := WithOutputFault(s.store, !w.Acked?),
           gated := RemoveAt(s.gated, i))
    case PulseWrite(r, w) =>
      if !Pulsed(r) || !PulseOf(s.driver, r).Starting? then s
      else
        s.(driver := FinishPulse(s.driver, r, PulseOf(s.driver, r).ms, w, s.now),
           store := WithOutputFault(s.store, !w.Acked?))
    case TickStart =>
      if !s.phase.Asleep? then s
      else if Due(s.watch, s.now) then s.(store := Release(s.store), phase := AtInhibit, began := s.now)
      else s.(landed := s.now)
    case TickWrite(w) =>
      (match s.phase
       case Asleep => s
       case AtInhibit =>
         s.(driver := WriteRelay(s.driver, InhibitRelay, false, w, s.now),
            phase := if w.Acked? then AtForce else Asleep)
       case AtForce =>
         s.(driver := WriteRelay(s.driver, ForceRelay, false, w, s.now), phase := Asleep,
            watch := if w.Acked? then s.watch.(released := true) else s.watch,
            landed := if w.Acked? then s.began else s.landed))
    case ResetStart =>
      if s.reset.NotStarted? then s.(driver := CancelPulses(s.driver), reset := Writing(0)) else s
    case ResetWrite(w) =>
      if !s.reset.Writing? || s.reset.k >= 4 then s
      else
        var driver := WriteRelay(s.driver, RelayAt(s.reset.k), false, w, s.now);
        if w.Acked? then s.(driver := driver, reset := if s.reset.k == 3 then Done else Writing(s.reset.k + 1))
        else s.(driver := driver, reset := NotStarted, store := WithInputFault(s.store, true))
    case Sample(inputs, wall) =>
      if !s.reset.Done? then s
      else
        var store := WithInputFault(ApplyOutputs(ApplyInputs(s.store, inputs, wall), s.driver.coils), false);
        var good := s.driver.armed && Consistent(s.driver, s.driver.coils, s.now);
        s.(store := if good then store else WithOutputFault(store, true))
    case SampleFails =>
      if s.reset.Done? then s.(store := WithInputFault(s.store, true)) else s
    case PulseWakes(r, w) =>
      if Pulsed(r) then s.(driver := FirePulse(s.driver, r, Link(None, w), s.now)) else s
    case FailSafeVerdict(ok) => s.(driver := s.driver.(armed := ok))
    case Restart(p, wall, verdict) => Boot(s.now, s.driver.coils, p, wall, verdict)
  }

  /** A dispatched command reaches its checks. */
  function Begin(s: System, i: nat): System
    requires i < |s.tasks|
  {
    var rest := RemoveAt(s.tasks, i);
    match Check(s.driver, s.tasks[i])
    case Refused => s.(store := WithOutputFault(s.store, true), tasks := rest)
    case Ignored =>
      if PulseOf(s.driver, RelayOf(s.tasks[i])).Starting? then s
      else s.(store := WithOutputFault(s.store, false), tasks := rest)
    case Passed(driver) =>
      s.(driver := driver, tasks := rest,
         gated := if Pulsed(RelayOf(s.tasks[i])) then s.gated else s.gated + [s.tasks[i]])
  }

  function Run(s: System, es: seq<Event>): System
    decreases |es|
  {
    if es == [] then s else Run(Step(s, es[0]), es[1..])
  }

  /** `ok` holds of every state of a run with the event taken there. */
  ghost predicate Along(s: System, es: seq<Event>, ok: (System, Event) -> bool)
    decreases |es|
  {
    es == [] || (ok(s, es[0]) && Along(Step(s, es[0]), es[1..], ok))
  }

  lemma {:induction false} RunAppend(s: System, a: seq<Event>, b: seq<Event>)
    ensures Run(s, a + b) == Run(Run(s, a), b)
    decreases |a|
  {
    if a == [] {
      assert a + b == b;
    } else {
      assert (a + b)[0] == a[0] && (a + b)[1..] == a[1..] + b;
      RunAppend(Step(s, a[0]), a[1..], b);
    }
  }

  lemma RunOne(s: System, e: Event)
    ensures Run(s, [e]) == Step(s, e)
  {
    assert [e][1..] == [];
  }

  lemma {:induction false} RunLast(s: System, es: seq<Event>)
    requires es != []
    ensures Run(s, es) == Step(Run(s, es[..|es| - 1]), es[|es| - 1])
  {
    assert es == es[..|es| - 1] + [es[|es| - 1]];
    RunAppend(s, es[..|es| - 1], [es[|es| - 1]]);
    RunOne(Run(s, es[..|es| - 1]), es[|es| - 1]);
  }

  /** The verdict that a write brings where it has to reconnect. */
  function Reconnect(l: Link): seq<Event> {
    if l.verdict.Some? then [FailSafeVerdict(l.verdict.value)] else []
  }

  lemma ReconnectEffect(s: System, l: Link)
    ensures Run(s, Reconnect(l)) == s.(driver := Reverified(s.driver, l.verdict))
  {
    if l.verdict.Some? {
      RunOne(s, FailSafeVerdict(l.verdict.value));
    }
  }

  /** One write of a watchdog round, over a connection that may have to be made anew. */
  function RoundWrite(l: Link): seq<Event> {
    Reconnect(l) + [TickWrite(l.result)]
  }

  lemma {:induction false} RoundWriteEffect(s: System, l: Link)
    ensures Run(s, RoundWrite(l)) == Step(s.(driver := Reverified(s.driver, l.verdict)), TickWrite(l.result))
  {
    RunAppend(s, Reconnect(l), [TickWrite(l.result)]);
    ReconnectEffect(s, l);
    RunOne(s.(driver := Reverified(s.driver, l.verdict)), TickWrite(l.result));
  }

  /** A watchdog round that nothing disturbs; without the first write there is no second. */
  function Round(link: Relay -> Link): seq<Event> {
    [TickStart] + RoundWrite(link(InhibitRelay))
    + if link(InhibitRelay).result.Acked? then RoundWrite(link(ForceRelay)) else []
  }

  /** An undisturbed watchdog round is what the watchdog object does in one tick. */
  lemma RoundIsTick(s: System, link: Relay -> Link)
    requires s.phase.Asleep? && Due(s.watch, s.now)
    ensures var t := Run(s, Round(link));
            var (ok, driver) := Drive(s.driver, RELEASE_MAINTAINED, link, s.now);
            && t.phase.Asleep? && t.driver == driver && t.watch == s.watch.(released := ok)
            && t.store == Release(s.store)
  {
    var a, b := RoundWrite(link(InhibitRelay)), RoundWrite(link(ForceRelay));
    var s1 := Step(s, TickStart);
    RunOne(s, TickStart);
    RunAppend(s, [TickStart], a);
    RoundWriteEffect(s1, link(InhibitRelay));
    if link(InhibitRelay).result.Acked? {
      RunAppend(s, [TickStart] + a, b);
      RoundWriteEffect(Run(s1, a), link(ForceRelay));
    } else {
      assert [TickStart] + a + [] == [TickStart] + a;
    }
  }

  /** The start-up reset from channel `k` on, with nothing in between, up to the first error. */
  function ResetRound(k: nat, link: Relay -> Link): seq<Event>
    requires k <= 4
    decreases 4 - k
  {
    if k == 4 then []
    else
      var l := link(RelayAt(k));
      Reconnect(l) + [ResetWrite(l.result)] + if l.result.Acked? then ResetRound(k + 1, link) else []
  }

  /** What one channel of it does. */
  lemma {:induction false} ResetWriteEffect(s: System, l: Link)
    requires s.reset.Writing? && s.reset.k < 4
    ensures var t := Run(s, Reconnect(l) + [ResetWrite(l.result)]);
            && t.driver == WriteVia(s.driver, RelayAt(s.reset.k), false, l, s.now)
            && t.reset == (if !l.result.Acked? then NotStarted
                           else if s.reset.k == 3 then Done else Writing(s.reset.k + 1))
            && t.now == s.now
            && t.store == if l.result.Acked? then s.store else WithInputFault(s.store, true)
  {
    RunAppend(s, Reconnect(l), [ResetWrite(l.result)]);
    ReconnectEffect(s, l);
    RunOne(s.(driver := Reverified(s.driver, l.verdict)), ResetWrite(l.result));
  }

  lemma {:induction false} ResetRoundEffect(s: System, k: nat, link: Relay -> Link)
    requires k <= 4 && s.reset == if k == 4 then Done else Writing(k)
    ensures var t := Run(s, ResetRound(k, link));
            var (ok, driver) := ReleaseFrom(s.driver, k, link, s.now);
            && t.driver == driver && t.reset == (if ok then Done else NotStarted)
            && t.store == if ok then s.store else WithInputFault(s.store, true)
    decreases 4 - k
  {
    if k < 4 {
      var l := link(RelayAt(k));
      var one := Reconnect(l) + [ResetWrite(l.result)];
      ResetWriteEffect(s, l);
      if l.result.Acked? {
        RunAppend(s, one, ResetRound(k + 1, link));
        ResetRoundEffect(Run(s, one), k + 1, link);
      } else {
        assert one + [] == one;
      }
    }
  }

  /** The start-up reset, undisturbed, is one call of the driver's release of all outputs: if it
      completes, all four relays are off and no release task is left; if not, it is to be done
      again, and the input fault says so. */
  lemma {:induction false} ResetIsReleaseAll(s: System, link: Relay -> Link)
    requires s.reset.NotStarted?
    ensures var t := Run(s, [ResetStart] + ResetRound(0, link));
            var (ok, driver) := ReleaseAll(s.driver, link, s.now);
            && t.driver == driver && t.reset == (if ok then Done else NotStarted)
            && (ok <==> forall r: Relay :: link(r).result.Acked?)
            && (ok ==> t.driver.coils == Outputs(false, false, false, false)
                       && !t.driver.testPulse.Waiting? && !t.driver.testPulse.Releasing?
                       && !t.driver.bypassPulse.Waiting? && !t.driver.bypassPulse.Releasing?)
            && (!ok ==> 0 in t.store.snap.faultBits)
  {
    var s1 := Step(s, ResetStart);
    RunOne(s, ResetStart);
    RunAppend(s, [ResetStart], ResetRound(0, link));
    ResetRoundEffect(s1, 0, link);
    var d := CancelPulses(s.driver);
    ReleaseFromEffect(d, 0, link, s.now);
    AllChannels(link);
    var coils := ReleaseAll(s.driver, link, s.now).1.coils;
    assert ReleaseAll(s.driver, link, s.now).0 ==>
             !Get(coils, TestRelay) && !Get(coils, ForceRelay) && !Get(coils, InhibitRelay) && !Get(coils, BypassRelay);
  }

  lemma AllChannels(link: Relay -> Link)
    ensures (forall j :: 0 <= j < 4 ==> link(RelayAt(j)).result.Acked?) <==> forall r: Relay :: link(r).result.Acked?
  {
    forall r: Relay ensures RelayAt(ChannelOf(r)) == r {}
    if forall j :: 0 <= j < 4 ==> link(RelayAt(j)).result.Acked? {
      forall r: Relay ensures link(r).result.Acked? { assert link(RelayAt(ChannelOf(r))).result.Acked?; }
    }
  }

  /** A restart leaves the relays as they are and remembers nothing else: not who commanded, not a
      command on its way, not a pulse that is running. */
  lemma RestartKeepsRelays(s: System, p: Persisted, wall: int, verdict: bool)
    ensures var t := Step(s, Restart(p, wall, verdict));
            && t.driver.coils == s.driver.coils && t.driver.armed == verdict && t.driver.commanded == map[]
            && t.driver.testPulse.NoPulse? && t.driver.bypassPulse.NoPulse? && t.tasks == [] && t.gated == []
            && t.commander.None? && t.watch == Watch(s.now, false, false) && t.phase.Asleep? && t.reset.NotStarted?
  {
  }

  /** The events of a command's write, over a connection that may have to be made anew. */
  function CommandWrite(s: System, i: Intent, l: Link): seq<Event> {
    Reconnect(l) + [if Pulsed(RelayOf(i)) then PulseWrite(RelayOf(i), l.result) else DispatchWrite(|s.gated|, l.result)]
  }

  /** A dispatch that nothing disturbs is one call of the driver. */
  lemma {:induction false} DispatchIsCall(s: System, i: nat, link: Relay -> Link)
    requires i < |s.tasks|
    requires Check(s.driver, s.tasks[i]).Passed?
    ensures var t := Run(s, [DispatchStart(i)] + CommandWrite(s, s.tasks[i], link(RelayOf(s.tasks[i]))));
            var (ok, driver) := Drive(s.driver, CallOf(s.tasks[i]), link, s.now);
            && t.driver == driver && t.store == WithOutputFault(s.store, !ok)
            && t.tasks == RemoveAt(s.tasks, i) && t.gated == s.gated
  {
    var intent := s.tasks[i];
    var l := link(RelayOf(intent));
    var s1 := Step(s, DispatchStart(i));
    var s2 := s1.(driver := Reverified(s1.driver, l.verdict));
    var write := CommandWrite(s, intent, l)[|Reconnect(l)|];
    RunOne(s, DispatchStart(i));
    RunAppend(s, [DispatchStart(i)], CommandWrite(s, intent, l));
    RunAppend(s1, Reconnect(l), [write]);
    ReconnectEffect(s1, l);
    RunOne(s2, write);
    IntentIsCall(s.driver, intent, link, s.now);
    WriteAfterBegin(s, i, l);
  }

  lemma WriteAfterBegin(s: System, i: nat, l: Link)
    requires i < |s.tasks| && Check(s.driver, s.tasks[i]).Passed?
    ensures var intent := s.tasks[i];
            var s1 := Begin(s, i);
            var d := Reverified(s1.driver, l.verdict);
            var t := Step(s1.(driver := d), if Pulsed(RelayOf(intent)) then PulseWrite(RelayOf(intent), l.result)
                                            else DispatchWrite(|s.gated|, l.result));
            && s1.driver == Check(s.driver, intent).driver
            && t.driver == WriteIntent(d, intent, l.result, s.now)
            && t.store == WithOutputFault(s.store, !l.result.Acked?)
            && t.tasks == RemoveAt(s.tasks, i) && t.gated == s.gated
  {
    match s.tasks[i]
    case PulseTest(_) =>
    case PulseBypass(_) =>
    case SetInhibit(_) => assert RemoveAt(s.gated + [s.tasks[i]], |s.gated|) == s.gated;
    case SetForce(_) => assert RemoveAt(s.gated + [s.tasks[i]], |s.gated|) == s.gated;
  }

  // --------------------------------------------------------------- who keeps the relays on

  predicate MaintainedAssert(i: Intent) {
    (i.SetInhibit? || i.SetForce?) && i.on
  }

  ghost predicate IsBoot(s: System) {
    exists now, coils, p, wall, verdict :: s == Boot(now, coils, p, wall, verdict)
  }

  predicate NoAsserts(tasks: seq<Intent>) {
    forall t :: t in tasks ==> !MaintainedAssert(t)
  }

  predicate BothOff(coils: Outputs) {
    !coils.inhibit && !coils.force
  }

  /** No accepted assertion of a maintained relay is on its way to the relay. */
  predicate NonePending(s: System) {
    NoAsserts(s.tasks) && NoAsserts(s.gated)
  }

  /** The scheduling under which a release means what it says: when a release begins no
      accepted assertion is still waiting to be written, and none is accepted while the
      release is under way. */
  ghost predicate Orderly(s: System, e: Event) {
    && (e.TickStart? && s.phase.Asleep? && Due(s.watch, s.now) ==> NonePending(s))
    && (!s.phase.Asleep? ==> NoAsserts(Spawned(s, e)))
  }

  ghost predicate SafeInv(s: System) {
    && (s.watch.released ==> BothOff(s.driver.coils) && NonePending(s))
    && (!s.phase.Asleep? ==> NonePending(s))
    && (s.phase.AtForce? ==> !s.driver.coils.inhibit)
  }

  /** The write of a command that is not a maintained assertion leaves no maintained relay
      newly on. */
  lemma WriteEffect(d: Driver, i: Intent, w: WriteResult, now: real)
    requires !MaintainedAssert(i)
    ensures var d' := WriteIntent(d, i, w, now);
            (d'.coils.inhibit ==> d.coils.inhibit) && (d'.coils.force ==> d.coils.force)
  {
  }

  /** Reaching its checks moves a command on or drops it, and touches no relay. */
  lemma BeginEffect(s: System, i: nat)
    requires i < |s.tasks|
    ensures var t := Begin(s, i);
            && t.driver.coils == s.driver.coils && t.watch == s.watch && t.phase == s.phase
            && (NonePending(s) ==> NonePending(t))
  {
    assert s.tasks[i] in s.tasks;
  }

  /** Only the two writes that put a command on its relay can switch one on. */
  lemma CoilsFrame(s: System, e: Event, r: Relay)
    requires !e.DispatchWrite? && !e.PulseWrite?
    ensures Get(Step(s, e).driver.coils, r) ==> Get(s.driver.coils, r)
  {
    match e
    case DispatchStart(i) => if i < |s.tasks| { BeginEffect(s, i); }
    case TickWrite(w) => TickOnlyOff(s, w, r);
    case ResetWrite(w) => ResetOnlyOff(s, w, r);
    case PulseWakes(x, w) => OnlyOff(s.driver, x, Link(None, w), s.now, r);
    case _ =>
  }

  lemma TickOnlyOff(s: System, w: WriteResult, r: Relay)
    ensures Get(Step(s, TickWrite(w)).driver.coils, r) ==> Get(s.driver.coils, r)
  {
    match s.phase case Asleep => case AtInhibit => case AtForce =>
  }

  lemma ResetOnlyOff(s: System, w: WriteResult, r: Relay)
    ensures Get(Step(s, ResetWrite(w)).driver.coils, r) ==> Get(s.driver.coils, r)
  {
    if s.reset.Writing? && s.reset.k < 4 {
      var driver := WriteRelay(s.driver, RelayAt(s.reset.k), false, w, s.now);
      assert Step(s, ResetWrite(w)).driver == driver;
    }
  }

  lemma OnlyOff(d: Driver, x: Relay, l: Link, now: real, r: Relay)
    ensures Get(FirePulse(d, x, l, now).coils, r) ==> Get(d.coils, r)
  {
    match PulseOf(d, x) case NoPulse => case Starting(_) => case Waiting(_) => case Releasing(_, _) =>
  }

  /** Whoever has a write of one or more words accepted is from then on the commander, and keeps
      the watchdog quiet, whether or not the words mean anything. */
  lemma {:induction false} AcceptedWriterCommands(s: System, conn: Conn, fc: FunctionCode, addr: int, values: seq<int>)
    requires IsHoldingWrite(fc) && values != [] && Validate(s.store, fc, addr, |values|, false).0
    ensures var t := Step(s, Request(conn, fc, Some(addr), values));
            && IsCommandWrite(fc, Some(addr)) && t.commander == Some(conn) && t.watch == NoteRead(s.now)
            && Permitted(s.store.snap.mode, addr, |values|)
            && t.tasks == s.tasks + InPattern(addr, values)
  {
    GuardWordsExact(s.store, addr, |values|);
    assert ModeAllows(addr, s.store.snap.mode);
    WriteWordsExact(s.store, addr, values);
  }

  /** Only an accepted command write by the connection that is then the commander spawns
      commands. */
  lemma {:induction false} SpawnedByCommander(s: System, e: Event)
    requires Spawned(s, e) != []
    ensures var t := Step(s, e);
            && IsCommandWrite(e.fc, e.addr) && t.commander == Some(e.conn)
            && t.watch == NoteRead(s.now)
            && Permitted(s.store.snap.mode, e.addr.value, |e.values|)
            && t.tasks == s.tasks + InPattern(e.addr.value, e.values)
  {
    assert e.values != [];
    AcceptedWriterCommands(s, e.conn, e.fc, e.addr.value, e.values);
  }

  lemma SafeRequest(s: System, e: Event)
    requires SafeInv(s) && Orderly(s, e) && e.Request?
    ensures SafeInv(Step(s, e))
  {
    if Spawned(s, e) != [] {
      SpawnedByCommander(s, e);
    }
  }

  lemma SafeDispatch(s: System, e: Event)
    requires SafeInv(s) && (e.DispatchStart? || e.DispatchWrite?)
    ensures SafeInv(Step(s, e))
  {
    if e.DispatchStart? && e.i < |s.tasks| {
      BeginEffect(s, e.i);
    }
    if e.DispatchWrite? && e.i < |s.gated| && NonePending(s) {
      assert s.gated[e.i] in s.gated;
      WriteEffect(s.driver, s.gated[e.i], e.w, s.now);
    }
  }

  lemma {:induction false} SafeStep(s: System, e: Event)
    requires SafeInv(s) && Orderly(s, e)
    ensures SafeInv(Step(s, e))
  {
    match e
    case Request(_, _, _, _) => SafeRequest(s, e);
    case DispatchStart(_) => SafeDispatch(s, e);
    case DispatchWrite(_, _) => SafeDispatch(s, e);
    case TickStart => SafeTickStart(s);
    case TickWrite(w) => SafeTickWrite(s, w);
    case PulseWrite(_, _) => SafeElsewhere(s, e);
    case PulseWakes(_, _) => SafeElsewhere(s, e);
    case ResetWrite(_) => SafeElsewhere(s, e);
    case Disconnect(_) =>
    case Restart(_, _, _) =>
    case _ => SafeElsewhere(s, e);
  }

  lemma SafeTickStart(s: System)
    requires SafeInv(s) && Orderly(s, TickStart)
    ensures SafeInv(Step(s, TickStart))
  {
  }

  lemma SafeTickWrite(s: System, w: WriteResult)
    requires SafeInv(s)
    ensures SafeInv(Step(s, TickWrite(w)))
  {
    match s.phase case Asleep => case AtInhibit => case AtForce =>
  }

  /** Events that concern neither the watchdog nor the commands on their way. */
  lemma SafeElsewhere(s: System, e: Event)
    requires SafeInv(s)
    requires e.PulseWrite? || e.PulseWakes? || e.ResetStart? || e.ResetWrite? || e.Advance? || e.Sample?
             || e.SampleFails? || e.FailSafeVerdict?
    ensures SafeInv(Step(s, e))
  {
    if e.PulseWrite? {
      PulseWriteApart(s, e.r, e.w);
    } else {
      CoilsFrame(s, e, InhibitRelay);
      CoilsFrame(s, e, ForceRelay);
    }
  }

  /** Starting a pulse touches no maintained relay. */
  lemma PulseWriteApart(s: System, r: Relay, w: WriteResult)
    ensures var d := Step(s, PulseWrite(r, w)).driver;
            d.coils.inhibit == s.driver.coils.inhibit && d.coils.force == s.driver.coils.force
  {
    match r case TestRelay => case BypassRelay => case ForceRelay => case InhibitRelay =>
  }

  /** Over every orderly run: whenever the watchdog believes it has released the maintained
      relays, both are off, and no command is waiting that would switch one on again. */
  lemma {:induction false} ReleasedMeansOff(s: System, es: seq<Event>)
    requires SafeInv(s) && Along(s, es, Orderly)
    ensures SafeInv(Run(s, es))
    decreases |es|
  {
    if es != [] {
      SafeStep(s, es[0]);
      ReleasedMeansOff(Step(s, es[0]), es[1..]);
    }
  }
}
